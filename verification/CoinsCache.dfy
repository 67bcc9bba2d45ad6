/**
 The unspent-output cache of src/coins.cpp: a write-back cache over another view,
 with DIRTY and FRESH flags, stacked to any depth over a bottom database.

 Every view shows a plain map from outpoints to unspent coins. The methods below are
 proved to act on that map only, whatever the caches between hold.
 */
module Coins {
  import opened Wrappers
  import opened Sets

  datatype OutPoint = OutPoint(hash: nat, n: nat)

  datatype TxOut = TxOut(nValue: int, scriptPubKey: seq<nat>)

  datatype Coin = Coin(out: TxOut, coinBase: bool, coinStake: bool, time: nat, height: nat) {
    /** A coin is spent when its output is null, that is, has value -1. */
    predicate IsSpent() { out.nValue == -1 }
  }

  const EMPTY_COIN := Coin(TxOut(-1, []), false, false, 0, 0)

  datatype Entry = Entry(coin: Coin, isDirty: bool, isFresh: bool)

  type CoinMap = map<OutPoint, Entry>

  /** What a view shows: the unspent coins. */
  type Utxo = map<OutPoint, Coin>

  ghost predicate AllUnspent(v: Utxo) {
    forall o :: o in v ==> !v[o].IsSpent()
  }

  /** The map shown by a cache holding `cache` over a base that shows `base`. */
  ghost function Overlay(base: Utxo, cache: CoinMap): Utxo {
    map o | o in base.Keys + cache.Keys && (o in cache ==> !cache[o].coin.IsSpent())
      :: if o in cache then cache[o].coin else base[o]
  }

  /** Write one coin into a map: a spent coin removes the outpoint. */
  function Put(v: Utxo, o: OutPoint, c: Coin): Utxo {
    if c.IsSpent() then v - {o} else v[o := c]
  }

  /** Write those DIRTY entries of a child's cache that lie in `done` into a map. */
  ghost function ApplyDirty(v: Utxo, m: CoinMap, done: set<OutPoint>): Utxo {
    map o | o in v.Keys + m.Keys && (if o in m && o in done && m[o].isDirty then !m[o].coin.IsSpent() else o in v)
      :: if o in m && o in done && m[o].isDirty then m[o].coin else v[o]
  }

  /**
   What the flags of an entry say about the base below: a FRESH entry has no unspent coin
   under it, and an entry that is not DIRTY agrees with the base.
   */
  ghost predicate EntryOk(base: Utxo, o: OutPoint, e: Entry) {
    && (e.coin.IsSpent() ==> e.coin == EMPTY_COIN && e.isDirty)
    && (e.isFresh ==> e.isDirty && !e.coin.IsSpent() && o !in base)
    && (!e.isDirty ==> o in base && base[o] == e.coin)
  }

  ghost predicate CacheOk(base: Utxo, cache: CoinMap) {
    forall o :: o in cache ==> EntryOk(base, o, cache[o])
  }

  /** Total memory of the coins held in a cache. */
  ghost function TotalUsage(usage: Coin -> nat, m: CoinMap): nat {
    if m == map[] then 0 else
    var o :| o in m;
    usage(m[o].coin) + TotalUsage(usage, m - {o})
  }

  lemma {:induction false} TotalUsageWithout(usage: Coin -> nat, m: CoinMap, o: OutPoint)
    requires o in m
    ensures TotalUsage(usage, m) == usage(m[o].coin) + TotalUsage(usage, m - {o})
    decreases |m|
  {
    var p :| p in m && TotalUsage(usage, m) == usage(m[p].coin) + TotalUsage(usage, m - {p});
    if p != o {
      TotalUsageWithout(usage, m - {p}, o);
      TotalUsageWithout(usage, m - {o}, p);
      assert m - {p} - {o} == m - {o} - {p};
    }
  }

  lemma TotalUsageUpdate(usage: Coin -> nat, m: CoinMap, o: OutPoint, e: Entry)
    ensures TotalUsage(usage, m[o := e])
         == TotalUsage(usage, m) + usage(e.coin) - (if o in m then usage(m[o].coin) else 0)
  {
    TotalUsageWithout(usage, m[o := e], o);
    assert m[o := e] - {o} == m - {o};
    if o in m {
      TotalUsageWithout(usage, m, o);
    } else {
      assert m - {o} == m;
    }
  }

  /** Replacing the entry at `o` changes what is shown at `o` alone. */
  lemma OverlayUpdate(base: Utxo, cache: CoinMap, o: OutPoint, e: Entry)
    ensures Overlay(base, cache[o := e]) == Put(Overlay(base, cache), o, e.coin)
  {
  }

  /** Dropping an entry with nothing unspent under it hides the outpoint. */
  lemma OverlayErase(base: Utxo, cache: CoinMap, o: OutPoint)
    requires o !in base
    ensures Overlay(base, cache - {o}) == Put(Overlay(base, cache), o, EMPTY_COIN)
  {
  }

  /** A consistent cache shows exactly its base with the DIRTY entries written into it. */
  lemma DirtyEntriesSuffice(base: Utxo, cache: CoinMap)
    requires CacheOk(base, cache) && AllUnspent(base)
    ensures Overlay(base, cache) == ApplyDirty(base, cache, cache.Keys)
  {
  }

  /** The bottom of a stack: the database, which stores unspent coins only. */
  class CoinsViewDB {
    var coins: Utxo

    constructor (initial: Utxo)
      ensures coins == initial
    {
      coins := initial;
    }

    method GetCoin(o: OutPoint) returns (found: bool, coin: Coin)
      ensures found <==> o in coins
      ensures found ==> coin == coins[o]
    {
      if o in coins {
        return true, coins[o];
      }
      return false, EMPTY_COIN;
    }

    /** Write or erase the DIRTY entries, emptying the child's map on the way. */
    method BatchWrite(child: CoinMap)
      modifies this
      ensures coins == ApplyDirty(old(coins), child, child.Keys)
    {
      var rest := child.Keys;
      ApplyDirtyNothing(coins, child);
      while rest != {}
        invariant rest <= child.Keys
        invariant coins == ApplyDirty(old(coins), child, child.Keys - rest)
        decreases rest
      {
        var o :| o in rest;
        ApplyDirtyStep(old(coins), child, child.Keys - rest, o);
        if child[o].isDirty {
          coins := Put(coins, o, child[o].coin);
        }
        OneFewer(child.Keys, rest, o);
        rest := rest - {o};
      }
      assert child.Keys - {} == child.Keys;
    }
  }

  lemma ApplyDirtyNothing(v: Utxo, m: CoinMap)
    ensures ApplyDirty(v, m, m.Keys - m.Keys) == v
  {
  }

  lemma ApplyDirtyStep(v: Utxo, m: CoinMap, done: set<OutPoint>, o: OutPoint)
    requires o in m && o !in done
    ensures ApplyDirty(v, m, done + {o})
         == if m[o].isDirty then Put(ApplyDirty(v, m, done), o, m[o].coin) else ApplyDirty(v, m, done)
    ensures EntryOk(v, o, m[o]) ==> EntryOk(ApplyDirty(v, m, done), o, m[o])
  {
  }

  /** The entry AddCoin leaves at `o`. */
  function AddedEntry(cache: CoinMap, o: OutPoint, coin: Coin, possibleOverwrite: bool): Entry {
    var entry := if o in cache then cache[o] else Entry(EMPTY_COIN, false, false);
    Entry(coin, true, entry.isFresh || (!possibleOverwrite && !entry.isDirty))
  }

  /** Marking the added entry FRESH is right exactly when the outpoint was not shown. */
  lemma AddedEntryOk(base: Utxo, cache: CoinMap, o: OutPoint, coin: Coin, possibleOverwrite: bool)
    requires CacheOk(base, cache) && !coin.IsSpent()
    requires possibleOverwrite || o !in cache || cache[o].coin.IsSpent()
    ensures CacheOk(base, cache[o := AddedEntry(cache, o, coin, possibleOverwrite)])
       <==> possibleOverwrite || o !in Overlay(base, cache)
  {
    var entry := AddedEntry(cache, o, coin, possibleOverwrite);
    var after := cache[o := entry];
    assert EntryOk(base, o, entry) <==> possibleOverwrite || o !in Overlay(base, cache);
    forall p | p in after && p != o
      ensures EntryOk(base, p, after[p])
    {
      assert after[p] == cache[p];
    }
    assert after[o] == entry;
  }

  datatype Base = Bottom(db: CoinsViewDB) | Cache(view: CoinsViewCache)

  ghost function Last(vs: seq<Utxo>): Utxo
    requires |vs| > 0
  {
    vs[|vs| - 1]
  }

  ghost function ReplaceLast(vs: seq<Utxo>, v: Utxo): seq<Utxo>
    requires |vs| > 0
  {
    vs[|vs| - 1 := v]
  }

  class CoinsViewCache {
    const base: Base
    /** Memory used by a coin's script; a cleared coin uses none. */
    const usageOf: Coin -> nat
    /** Whether a coin's script can never be spent. */
    const unspendable: Coin -> bool
    var cacheCoins: CoinMap
    var cachedCoinsUsage: int

    ghost const Repr: set<object>

    /** The views below form a finite chain that does not contain this one. */
    ghost predicate Linked()
      decreases Repr
    {
      && this in Repr
      && usageOf(EMPTY_COIN) == 0
      && match base
         case Bottom(db) => db in Repr
         case Cache(view) => view in Repr && view.Repr < Repr && this !in view.Repr && view.Linked()
    }

    /** The maps shown by the views below, the bottom one first. */
    ghost function Below(): (vs: seq<Utxo>)
      requires Linked()
      reads Repr - {this}
      ensures |vs| >= 1
      decreases Repr, 0
    {
      match base
      case Bottom(db) => [db.coins]
      case Cache(view) => view.Views()
    }

    /** The maps shown by every view up to and including this one. */
    ghost function Views(): (vs: seq<Utxo>)
      requires Linked()
      reads Repr
      ensures |vs| >= 2
      decreases Repr, 1
    {
      Below() + [Overlay(Last(Below()), cacheCoins)]
    }

    /** The map this view shows. */
    ghost function View(): Utxo
      requires Linked()
      reads Repr
    {
      Last(Views())
    }

    ghost predicate BaseValid()
      requires Linked()
      reads Repr - {this}
      decreases Repr, 0
    {
      match base
      case Bottom(db) => AllUnspent(db.coins)
      case Cache(view) => view.Valid()
    }

    ghost predicate Valid()
      reads Repr
      decreases Repr, 1
    {
      && Linked()
      && BaseValid()
      && CacheOk(Last(Below()), cacheCoins)
      && cachedCoinsUsage == TotalUsage(usageOf, cacheCoins)
    }

    /** This view is consistent, shows `v`, and those below show `below`. */
    ghost predicate Shows(below: seq<Utxo>, v: Utxo)
      reads Repr
    {
      Valid() && Below() == below && View() == v
    }

    lemma ShowsUnspent()
      requires Valid()
      ensures AllUnspent(Last(Below())) && AllUnspent(View())
      decreases Repr
    {
      match base
      case Bottom(db) =>
      case Cache(view) => view.ShowsUnspent();
    }

    constructor (base: Base, usageOf: Coin -> nat, unspendable: Coin -> bool)
      requires usageOf(EMPTY_COIN) == 0
      requires base.Bottom? ==> AllUnspent(base.db.coins)
      requires base.Cache? ==> base.view.Valid()
      ensures Valid()
      ensures this.base == base && this.usageOf == usageOf && this.unspendable == unspendable
      ensures Repr == {this} + (match base case Bottom(db) => {db} case Cache(view) => view.Repr)
      ensures Below() == match base case Bottom(db) => [db.coins] case Cache(view) => view.Views()
      ensures cacheCoins == map[] && View() == Last(Below())
    {
      this.base := base;
      this.usageOf := usageOf;
      this.unspendable := unspendable;
      cacheCoins := map[];
      cachedCoinsUsage := 0;
      Repr := {this} + (match base case Bottom(db) => {db} case Cache(view) => view.Repr);
      new;
      assert Overlay(Last(Below()), map[]) == Last(Below());
    }

    /** Put an entry in this cache, keeping the memory total. */
    method Store(o: OutPoint, e: Entry)
      requires Valid() && EntryOk(Last(Below()), o, e)
      modifies this
      ensures Valid() && Below() == old(Below())
      ensures Views() == Below() + [Put(old(View()), o, e.coin)]
      ensures cacheCoins == old(cacheCoins)[o := e]
    {
      hide TotalUsage;
      OverlayUpdate(Last(Below()), cacheCoins, o, e);
      TotalUsageUpdate(usageOf, cacheCoins, o, e);
      if o in cacheCoins {
        cachedCoinsUsage := cachedCoinsUsage - usageOf(cacheCoins[o].coin);
      }
      cacheCoins := cacheCoins[o := e];
      cachedCoinsUsage := cachedCoinsUsage + usageOf(e.coin);
    }

    method AskBase(o: OutPoint) returns (found: bool, coin: Coin)
      requires Valid()
      modifies Repr - {this}
      ensures Valid() && Views() == old(Views())
      ensures found <==> o in Last(Below())
      ensures found ==> coin == Last(Below())[o]
      decreases Repr, 0
    {
      match base {
        case Bottom(db) =>
          found, coin := db.GetCoin(o);
        case Cache(view) =>
          found, coin := view.GetCoin(o);
      }
    }

    /** Look an outpoint up, filling this cache (and those below) from the base. */
    method FetchCoin(o: OutPoint) returns (found: bool)
      requires Valid()
      modifies Repr
      ensures Valid() && Views() == old(Views())
      ensures found <==> o in cacheCoins
      ensures !found ==> o !in View()
      ensures o in old(cacheCoins) ==> cacheCoins == old(cacheCoins)
      ensures cacheCoins == old(cacheCoins)
           || (o in View() && cacheCoins == old(cacheCoins)[o := Entry(View()[o], false, false)])
      decreases Repr, 1
    {
      if o in cacheCoins {
        return true;
      }
      var inBase, tmp := AskBase(o);
      if !inBase {
        return false;
      }
      ShowsUnspent();
      Store(o, Entry(tmp, false, tmp.IsSpent()));
      assert View() == old(View());
      return true;
    }

    method GetCoin(o: OutPoint) returns (found: bool, coin: Coin)
      requires Valid()
      modifies Repr
      ensures Valid() && Views() == old(Views())
      ensures found <==> o in View()
      ensures found ==> coin == View()[o]
      decreases Repr, 2
    {
      var cached := FetchCoin(o);
      if cached {
        coin := cacheCoins[o].coin;
        return !coin.IsSpent(), coin;
      }
      return false, EMPTY_COIN;
    }

    method HaveCoin(o: OutPoint) returns (have: bool)
      requires Valid()
      modifies Repr
      ensures Valid() && Views() == old(Views())
      ensures have <==> o in View()
    {
      var cached := FetchCoin(o);
      return cached && !cacheCoins[o].coin.IsSpent();
    }

    /** Ask this cache alone. */
    method HaveCoinInCache(o: OutPoint) returns (have: bool)
      requires Valid()
      ensures have <==> o in cacheCoins && o in View()
    {
      return o in cacheCoins && !cacheCoins[o].coin.IsSpent();
    }

    method AccessCoin(o: OutPoint) returns (coin: Coin)
      requires Valid()
      modifies Repr
      ensures Valid() && Views() == old(Views())
      ensures coin == if o in View() then View()[o] else EMPTY_COIN
    {
      var cached := FetchCoin(o);
      return if cached then cacheCoins[o].coin else EMPTY_COIN;
    }

    /**
     Add a coin. The call throws exactly when the cache itself holds an unspent coin there
     and the caller ruled an overwrite out. It leaves a consistent cache if and only if the
     caller was right to rule the overwrite out (or did not).
     */
    method AddCoin(o: OutPoint, coin: Coin, possibleOverwrite: bool) returns (thrown: bool)
      requires Valid() && !coin.IsSpent()
      modifies this
      ensures Linked() && BaseValid() && Below() == old(Below())
      ensures thrown <==> !unspendable(coin) && !possibleOverwrite && o in old(cacheCoins) && o in old(View())
      ensures !thrown ==> View() == if unspendable(coin) then old(View()) else old(View())[o := coin]
      ensures !thrown && !unspendable(coin) ==>
        cacheCoins == old(cacheCoins)[o := AddedEntry(old(cacheCoins), o, coin, possibleOverwrite)]
      ensures !thrown ==> (Valid() <==> unspendable(coin) || possibleOverwrite || o !in old(View()))
    {
      hide TotalUsage, CacheOk;
      if unspendable(coin) {
        return false;
      }
      if o in cacheCoins {
        cachedCoinsUsage := cachedCoinsUsage - usageOf(cacheCoins[o].coin);
      }
      if !possibleOverwrite && o in cacheCoins && !cacheCoins[o].coin.IsSpent() {
        return true;
      }
      var entry := AddedEntry(cacheCoins, o, coin, possibleOverwrite);
      AddedEntryOk(Last(Below()), cacheCoins, o, coin, possibleOverwrite);
      OverlayUpdate(Last(Below()), cacheCoins, o, entry);
      TotalUsageUpdate(usageOf, cacheCoins, o, entry);
      cacheCoins := cacheCoins[o := entry];
      cachedCoinsUsage := cachedCoinsUsage + usageOf(coin);
      return false;
    }

    /** Drop an entry from this cache, keeping the memory total. */
    method Erase(o: OutPoint)
      requires Valid() && o in cacheCoins
      modifies this
      ensures Valid() && Below() == old(Below())
      ensures cacheCoins == old(cacheCoins) - {o}
    {
      TotalUsageWithout(usageOf, cacheCoins, o);
      cachedCoinsUsage := cachedCoinsUsage - usageOf(cacheCoins[o].coin);
      cacheCoins := cacheCoins - {o};
    }

    /**
     Spend a coin, handing it out. The map loses the outpoint. The flag returned says
     "there was a coin" if and only if no spent entry for the outpoint is still cached.
     */
    method SpendCoin(o: OutPoint) returns (ok: bool, moved: Coin)
      requires Valid()
      modifies Repr
      ensures Valid() && Below() == old(Below())
      ensures View() == old(View()) - {o}
      ensures moved == if o in old(View()) then old(View())[o] else EMPTY_COIN
      ensures o in old(View()) ==> ok
      ensures o in cacheCoins <==> ok && !(o in old(cacheCoins) && old(cacheCoins)[o].isFresh)
      ensures (ok <==> o in old(View())) <==> !(o in old(cacheCoins) && old(cacheCoins)[o].coin.IsSpent())
    {
      var cached := FetchCoin(o);
      if !cached {
        assert View() == View() - {o};
        assert Below() == Views()[..|Views()| - 1] == old(Views())[..|old(Views())| - 1] == old(Below());
        return false, EMPTY_COIN;
      }
      moved := cacheCoins[o].coin;
      assert Views() == old(Views());
      assert Below() == old(Views())[..|old(Views())| - 1] == old(Below());
      if cacheCoins[o].isFresh {
        OverlayErase(Last(Below()), cacheCoins, o);
        Erase(o);
      } else {
        Store(o, Entry(EMPTY_COIN, true, false));
      }
      return true, moved;
    }

    /** Forget an entry that was not modified. */
    method Uncache(o: OutPoint)
      requires Valid()
      modifies this
      ensures Valid() && Views() == old(Views())
      ensures cacheCoins == if o in old(cacheCoins) && !old(cacheCoins)[o].isDirty && !old(cacheCoins)[o].isFresh
                            then old(cacheCoins) - {o} else old(cacheCoins)
    {
      if o in cacheCoins && !cacheCoins[o].isDirty && !cacheCoins[o].isFresh {
        ShowsUnspent();
        assert Overlay(Last(Below()), cacheCoins - {o}) == Overlay(Last(Below()), cacheCoins);
        Erase(o);
      }
    }

    /** Merge one entry of a child's cache; only DIRTY ones matter. */
    method MergeEntry(o: OutPoint, e: Entry, ghost below: seq<Utxo>, ghost v: Utxo) returns (thrown: bool)
      requires Shows(below, v) && EntryOk(v, o, e)
      modifies this
      ensures !thrown && Shows(below, if e.isDirty then Put(v, o, e.coin) else v)
    {
      hide TotalUsage, CoinsViewCache.Linked, CoinsViewCache.BaseValid;
      if !e.isDirty {
        return false;
      }
      if o !in cacheCoins {
        if !(e.isFresh && e.coin.IsSpent()) {
          Store(o, Entry(e.coin, true, e.isFresh));
        }
      } else {
        if e.isFresh && !cacheCoins[o].coin.IsSpent() {
          return true;
        }
        if cacheCoins[o].isFresh && e.coin.IsSpent() {
          OverlayErase(Last(Below()), cacheCoins, o);
          Erase(o);
        } else {
          Store(o, Entry(e.coin, true, cacheCoins[o].isFresh));
        }
      }
      return false;
    }

    /** Take over the entries of a child that is consistent with what this view shows. */
    method BatchWrite(child: CoinMap) returns (thrown: bool)
      requires Valid() && CacheOk(View(), child)
      modifies this
      ensures !thrown
      ensures Valid() && Below() == old(Below())
      ensures View() == ApplyDirty(old(View()), child, child.Keys)
    {
      var rest := child.Keys;
      ghost var below, v := Below(), View();
      ApplyDirtyNothing(v, child);
      while rest != {}
        invariant rest <= child.Keys
        invariant Shows(below, ApplyDirty(v, child, child.Keys - rest))
        decreases rest
      {
        var o :| o in rest;
        ApplyDirtyStep(v, child, child.Keys - rest, o);
        thrown := MergeEntry(o, child[o], below, ApplyDirty(v, child, child.Keys - rest));
        if thrown {
          return;
        }
        OneFewer(child.Keys, rest, o);
        rest := rest - {o};
      }
      assert child.Keys - {} == child.Keys;
      return false;
    }

    method WriteToBase() returns (thrown: bool)
      requires Valid()
      modifies Repr - {this}
      ensures !thrown && BaseValid()
      ensures Below() == ReplaceLast(old(Below()), old(View()))
    {
      ShowsUnspent();
      DirtyEntriesSuffice(Last(Below()), cacheCoins);
      match base {
        case Bottom(db) =>
          db.BatchWrite(cacheCoins);
          thrown := false;
        case Cache(view) =>
          thrown := view.BatchWrite(cacheCoins);
      }
    }

    /** Push every modification to the base and empty this cache. */
    method Flush() returns (ok: bool)
      requires Valid()
      modifies Repr
      ensures ok && Valid() && cacheCoins == map[]
      ensures Below() == ReplaceLast(old(Below()), old(View()))
      ensures View() == old(View())
    {
      var thrown := WriteToBase();
      cacheCoins := map[];
      cachedCoinsUsage := 0;
      assert Overlay(Last(Below()), map[]) == Last(Below());
      ok := !thrown;
    }
  }

  // -------------------------------------------------------------------------------------
  // Whole runs, against a stack of plain maps
  // -------------------------------------------------------------------------------------

  datatype Op =
    | Get(o: OutPoint)
    | Have(o: OutPoint)
    | Access(o: OutPoint)
    | Add(o: OutPoint, coin: Coin, possibleOverwrite: bool)
    | Spend(o: OutPoint)
    | Drop(o: OutPoint)
    | FlushTop
    | Push
    | Pop

  datatype Answer = Coins(coin: Option<Coin>) | Flag(value: bool) | Done

  ghost function Find(v: Utxo, o: OutPoint): Option<Coin> {
    if o in v then Some(v[o]) else None
  }

  /** What the operation must answer, looking at the top map only. */
  ghost function Expected(vs: seq<Utxo>, op: Op): Answer
    requires |vs| > 0
  {
    match op
    case Get(o) => Coins(Find(Last(vs), o))
    case Have(o) => Flag(o in Last(vs))
    case Access(o) => Coins(Find(Last(vs), o))
    case Spend(o) => Coins(Find(Last(vs), o))
    case _ => Done
  }

  /** What the operation does to the stack of maps. */
  ghost function After(vs: seq<Utxo>, op: Op, unspendable: Coin -> bool): (vs': seq<Utxo>)
    requires |vs| >= 2
    ensures |vs'| >= 2
  {
    match op
    case Add(o, coin, _) =>
      if unspendable(coin) then vs else ReplaceLast(vs, Last(vs)[o := coin])
    case Spend(o) => ReplaceLast(vs, Last(vs) - {o})
    case FlushTop => vs[|vs| - 2 := Last(vs)]
    case Push => vs + [Last(vs)]
    case Pop => if |vs| > 2 then vs[..|vs| - 1] else vs
    case _ => vs
  }

  /** The caller's obligations: add unspent coins only, and rule out an overwrite only when right. */
  ghost predicate Legal(vs: seq<Utxo>, op: Op)
    requires |vs| > 0
  {
    op.Add? ==> !op.coin.IsSpent() && (op.possibleOverwrite || op.o !in Last(vs))
  }

  ghost function AfterAll(vs: seq<Utxo>, ops: seq<Op>, unspendable: Coin -> bool): (vs': seq<Utxo>)
    requires |vs| >= 2
    ensures |vs'| >= 2
  {
    if ops == [] then vs
    else After(AfterAll(vs, ops[..|ops| - 1], unspendable), ops[|ops| - 1], unspendable)
  }

  /** The answers of a whole run. */
  ghost function ExpectedAll(vs: seq<Utxo>, ops: seq<Op>, unspendable: Coin -> bool): seq<Answer>
    requires |vs| >= 2
  {
    if ops == [] then []
    else
      var n := |ops| - 1;
      ExpectedAll(vs, ops[..n], unspendable) + [Expected(AfterAll(vs, ops[..n], unspendable), ops[n])]
  }

  ghost predicate LegalRun(vs: seq<Utxo>, ops: seq<Op>, unspendable: Coin -> bool)
    requires |vs| >= 2
  {
    forall i :: 0 <= i < |ops| ==> Legal(AfterAll(vs, ops[..i], unspendable), ops[i])
  }

  lemma {:induction false} RunStep(vs: seq<Utxo>, ops: seq<Op>, unspendable: Coin -> bool, i: nat)
    requires |vs| >= 2 && i < |ops| && LegalRun(vs, ops, unspendable)
    ensures Legal(AfterAll(vs, ops[..i], unspendable), ops[i])
    ensures AfterAll(vs, ops[..i + 1], unspendable) == After(AfterAll(vs, ops[..i], unspendable), ops[i], unspendable)
    ensures ExpectedAll(vs, ops[..i + 1], unspendable)
         == ExpectedAll(vs, ops[..i], unspendable) + [Expected(AfterAll(vs, ops[..i], unspendable), ops[i])]
  {
    var prefix := ops[..i + 1];
    assert prefix != [] && |prefix| - 1 == i && prefix[..i] == ops[..i] && prefix[i] == ops[i];
  }

  /** A stack of caches of which only the top one is used. */
  class CoinsStack {
    var top: CoinsViewCache
    const usageOf: Coin -> nat
    const unspendable: Coin -> bool

    ghost predicate Valid()
      reads this, top.Repr
    {
      && this !in top.Repr && top.Linked() && top.Valid() && usageOf(EMPTY_COIN) == 0
      && Uniform(top)
    }

    ghost predicate Uniform(view: CoinsViewCache)
      requires view.Linked()
      decreases view.Repr
    {
      && view.unspendable == unspendable
      && (view.base.Cache? ==> Uniform(view.base.view))
    }

    constructor (db: CoinsViewDB, usageOf: Coin -> nat, unspendable: Coin -> bool)
      requires AllUnspent(db.coins) && usageOf(EMPTY_COIN) == 0
      ensures Valid() && this.unspendable == unspendable && fresh(top.Repr - {db})
      ensures top.Views() == [db.coins, db.coins]
    {
      this.usageOf := usageOf;
      this.unspendable := unspendable;
      top := new CoinsViewCache(Bottom(db), usageOf, unspendable);
    }

    method Query(op: Op) returns (answer: Answer)
      requires Valid() && Legal(top.Views(), op) && (op.Get? || op.Have? || op.Access? || op.Drop?)
      modifies this, top.Repr
      ensures Valid() && fresh(top.Repr - old(top.Repr))
      ensures answer == Expected(old(top.Views()), op)
      ensures top.Views() == After(old(top.Views()), op, unspendable)
    {
      top.ShowsUnspent();
      match op {
        case Get(o) =>
          var found, coin := top.GetCoin(o);
          answer := Coins(if found then Some(coin) else None);
        case Have(o) =>
          var have := top.HaveCoin(o);
          answer := Flag(have);
        case Access(o) =>
          var coin := top.AccessCoin(o);
          answer := Coins(if coin.IsSpent() then None else Some(coin));
        case Drop(o) =>
          top.Uncache(o);
          answer := Done;
      }
    }

    method Edit(op: Op) returns (answer: Answer)
      requires Valid() && Legal(top.Views(), op) && (op.Add? || op.Spend?)
      modifies this, top.Repr
      ensures Valid() && fresh(top.Repr - old(top.Repr))
      ensures answer == Expected(old(top.Views()), op)
      ensures top.Views() == After(old(top.Views()), op, unspendable)
    {
      top.ShowsUnspent();
      match op {
        case Add(o, coin, overwrite) =>
          var thrown := top.AddCoin(o, coin, overwrite);
          answer := Done;
        case Spend(o) =>
          var ok, coin := top.SpendCoin(o);
          answer := Coins(if coin.IsSpent() then None else Some(coin));
      }
    }

    method Restack(op: Op) returns (answer: Answer)
      requires Valid() && Legal(top.Views(), op) && (op.FlushTop? || op.Push? || op.Pop?)
      modifies this, top.Repr
      ensures Valid() && fresh(top.Repr - old(top.Repr))
      ensures answer == Expected(old(top.Views()), op)
      ensures top.Views() == After(old(top.Views()), op, unspendable)
    {
      answer := Done;
      match op {
        case FlushTop =>
          var ok := top.Flush();
        case Push =>
          var parent := top;
          top := new CoinsViewCache(Cache(parent), usageOf, unspendable);
          assert top.Linked() && Uniform(parent);
          assert Uniform(top);
        case Pop =>
          if top.base.Cache? {
            var view := top.base.view;
            assert top.BaseValid() && view.Valid() && Uniform(view);
            top := view;
            assert view.Valid();
          }
      }
    }

    /** One operation on the stack does to every shown map, and answers, what the plain maps say. */
    method Step(op: Op) returns (answer: Answer)
      requires Valid() && Legal(top.Views(), op)
      modifies this, top.Repr
      ensures Valid() && fresh(top.Repr - old(top.Repr))
      ensures answer == Expected(old(top.Views()), op)
      ensures top.Views() == After(old(top.Views()), op, unspendable)
    {
      if op.Get? || op.Have? || op.Access? || op.Drop? {
        answer := Query(op);
      } else if op.Add? || op.Spend? {
        answer := Edit(op);
      } else {
        answer := Restack(op);
      }
    }

    /** Every answer in every legal run is the one the plain maps give. */
    method Run(ops: seq<Op>) returns (answers: seq<Answer>)
      requires Valid() && LegalRun(top.Views(), ops, unspendable)
      modifies this, top.Repr
      ensures Valid()
      ensures answers == ExpectedAll(old(top.Views()), ops, unspendable)
      ensures top.Views() == AfterAll(old(top.Views()), ops, unspendable)
    {
      answers := [];
      ghost var vs := top.Views();
      assert ops[..0] == [] && ops[..|ops|] == ops;
      for i := 0 to |ops|
        invariant Valid() && fresh(top.Repr - old(top.Repr))
        invariant top.Views() == AfterAll(vs, ops[..i], unspendable)
        invariant answers == ExpectedAll(vs, ops[..i], unspendable)
      {
        hide AfterAll, After, Expected, ExpectedAll, Legal, LegalRun;
        hide CoinsViewCache.Valid, CoinsViewCache.Linked, CoinsViewCache.Views;
        RunStep(vs, ops, unspendable, i);
        var answer := Step(ops[i]);
        answers := answers + [answer];
      }
    }
  }

  /**
   The flag SpendCoin returns is not a function of the map shown. A coin that came from the
   base can be spent twice with success, a coin added to this cache only once.
   */
  method SpendTwiceFromBase(o: OutPoint, coin: Coin) returns (first: bool, second: bool)
    requires !coin.IsSpent()
    ensures first && second
  {
    var db := new CoinsViewDB(map[o := coin]);
    var cache := new CoinsViewCache(Bottom(db), c => 0, c => false);
    var moved;
    first, moved := cache.SpendCoin(o);
    second, moved := cache.SpendCoin(o);
  }

  method SpendTwiceAdded(o: OutPoint, coin: Coin) returns (first: bool, second: bool)
    requires !coin.IsSpent()
    ensures first && !second
  {
    var db := new CoinsViewDB(map[]);
    var cache := new CoinsViewCache(Bottom(db), c => 0, c => false);
    first := AddThenSpend(cache, o, coin);
    var moved;
    second, moved := cache.SpendCoin(o);
  }

  method AddThenSpend(cache: CoinsViewCache, o: OutPoint, coin: Coin) returns (ok: bool)
    requires cache.Valid() && o !in cache.View() && o !in cache.cacheCoins
    requires !coin.IsSpent() && !cache.unspendable(coin)
    modifies cache.Repr
    ensures cache.Valid() && ok && o !in cache.View() && o !in cache.cacheCoins
  {
    var thrown := cache.AddCoin(o, coin, false);
    var moved;
    ok, moved := cache.SpendCoin(o);
  }
}
