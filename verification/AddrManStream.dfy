/**
 The compact on-disk form of the address manager (src/addrman.h): only the entries and, per
 new bucket, the indexes of its entries are written; everything else is rebuilt on reading.
 */
module AddrManStream {
  import opened AddrManState
  import opened Sets

  /** What is written of an entry. */
  datatype Saved = Saved(address: Address, source: NetAddr, lastSuccess: int, attempts: int)

  datatype Token = Num(n: int) | Key(key: nat) | Entry(saved: Saved)

  function Save(info: Info): Saved {
    Saved(info.address, info.source, info.lastSuccess, info.attempts)
  }

  function Load(saved: Saved): Info {
    Info(saved.address, saved.source, 0, 0, saved.lastSuccess, saved.attempts, 0, false, -1)
  }

  const BIT30 := 0x4000_0000

  /** Exclusive or with 2^30. */
  function FlipBit30(n: int): int {
    if (n / BIT30) % 2 == 0 then n + BIT30 else n - BIT30
  }

  /** The new (or tried) ids below n, in ascending order. */
  function Ids(infos: Infos, tried: bool, n: nat): seq<int> {
    if n == 0 then []
    else Ids(infos, tried, n - 1) + (if n - 1 in infos && infos[n - 1].inTried == tried then [n - 1] else [])
  }

  /** How many new (or tried) ids come before this one. */
  function Rank(infos: Infos, tried: bool, id: nat): nat {
    |Ids(infos, tried, id)|
  }

  function Entries(infos: Infos, ids: seq<int>): (tokens: seq<Token>)
    requires forall i :: 0 <= i < |ids| ==> ids[i] in infos
    ensures |tokens| == |ids| && forall i :: 0 <= i < |ids| ==> tokens[i] == Entry(Save(infos[ids[i]]))
  {
    if ids == [] then []
    else Entries(infos, ids[..|ids| - 1]) + [Entry(Save(infos[ids[|ids| - 1]]))]
  }

  /** The filled positions below n of a new bucket. */
  function Filled(t: Table, b: int, n: nat): (positions: seq<int>)
    requires Full(t, NEW_BUCKETS) && 0 <= b < NEW_BUCKETS && n <= BUCKET_SIZE
  {
    if n == 0 then []
    else Filled(t, b, n - 1) + (if t[Slot(b, n - 1)] != -1 then [n - 1] else [])
  }

  lemma {:induction false} IdsExact(infos: Infos, tried: bool, n: nat)
    ensures forall id :: id in Ids(infos, tried, n) <==> 0 <= id < n && id in infos && infos[id].inTried == tried
    ensures forall i, j :: 0 <= i < j < |Ids(infos, tried, n)| ==> Ids(infos, tried, n)[i] < Ids(infos, tried, n)[j]
  {
    if n > 0 {
      IdsExact(infos, tried, n - 1);
      var before, ids := Ids(infos, tried, n - 1), Ids(infos, tried, n);
      forall i, j | 0 <= i < j < |ids|
        ensures ids[i] < ids[j]
      {
        assert ids[i] == before[i] && before[i] in before;
      }
    }
  }

  lemma {:induction false} IdsPrefix(infos: Infos, tried: bool, m: nat, n: nat)
    requires m <= n
    ensures Ids(infos, tried, m) <= Ids(infos, tried, n)
  {
    if m < n {
      IdsPrefix(infos, tried, m, n - 1);
    }
  }

  /** An id stands in the list at its own rank. */
  lemma RankFinds(infos: Infos, tried: bool, id: nat, n: nat)
    requires id < n && id in infos && infos[id].inTried == tried
    ensures Rank(infos, tried, id) < |Ids(infos, tried, n)| && Ids(infos, tried, n)[Rank(infos, tried, id)] == id
  {
    IdsPrefix(infos, tried, id + 1, n);
    assert Ids(infos, tried, id + 1) == Ids(infos, tried, id) + [id];
  }

  lemma {:induction false} IdsSize(infos: Infos, tried: bool, n: nat)
    requires forall id :: id in infos ==> 0 <= id < n
    ensures |Ids(infos, tried, n)| == if tried then |TriedIds(infos)| else |NewIds(infos)|
  {
    IdsExact(infos, tried, n);
    var ids := Ids(infos, tried, n);
    DistinctSize(ids);
    var all := set id | id in ids;
    if tried {
      assert forall id :: id in all <==> id in TriedIds(infos);
      assert all == TriedIds(infos);
    } else {
      assert forall id :: id in all <==> id in NewIds(infos);
      assert all == NewIds(infos);
    }
  }

  // ---- the written form ----

  ghost function NewList(s: State): seq<int>
    requires s.count >= 0
  {
    Ids(s.infos, false, s.count)
  }

  ghost function TriedList(s: State): seq<int>
    requires s.count >= 0
  {
    Ids(s.infos, true, s.count)
  }

  lemma CountFacts(s: State)
    requires StateOk(s, {}, 0)
    ensures s.nTried == |TriedIds(s.infos)| && s.nNew == |NewIds(s.infos) - {}|
  {
  }

  lemma IdRange(s: State)
    requires StateOk(s, {}, 0)
    ensures forall id :: id in s.infos ==> 0 <= id < s.count
    ensures s.count >= 0
  {
  }

  /** What the lists of a consistent state hold. */
  lemma ListFacts(s: State)
    requires StateOk(s, {}, 0)
    ensures s.count >= 0 && |NewList(s)| == s.nNew && |TriedList(s)| == s.nTried
    ensures forall i :: 0 <= i < s.nNew ==> NewList(s)[i] in s.infos && !s.infos[NewList(s)[i]].inTried
    ensures forall i :: 0 <= i < s.nTried ==> TriedList(s)[i] in s.infos && s.infos[TriedList(s)[i]].inTried
  {
    hide StateOk;
    IdRange(s);
    CountFacts(s);
    IdsSize(s.infos, false, s.count);
    IdsSize(s.infos, true, s.count);
    assert NewIds(s.infos) - {} == NewIds(s.infos);
    IdsExact(s.infos, false, s.count);
    IdsExact(s.infos, true, s.count);
    assert forall i :: 0 <= i < s.nNew ==> NewList(s)[i] in NewList(s);
    assert forall i :: 0 <= i < s.nTried ==> TriedList(s)[i] in TriedList(s);
  }

  /** The entry that gets number k when the written form is read back. */
  ghost function Orig(s: State, k: int): (id: int)
    requires StateOk(s, {}, 0) && 0 <= k < s.nNew + s.nTried
    ensures id in s.infos && (s.infos[id].inTried <==> s.nNew <= k)
  {
    ListFacts(s);
    if k < s.nNew then NewList(s)[k] else TriedList(s)[k - s.nNew]
  }

  /** The number an entry gets when the written form is read back. */
  ghost function Renumber(s: State, id: int): (k: int)
    requires StateOk(s, {}, 0) && id in s.infos
    ensures 0 <= k < s.nNew + s.nTried && (s.infos[id].inTried <==> s.nNew <= k)
    ensures Orig(s, k) == id
  {
    ListFacts(s);
    IdRange(s);
    RankFinds(s.infos, s.infos[id].inTried, id, s.count);
    if s.infos[id].inTried then s.nNew + Rank(s.infos, true, id) else Rank(s.infos, false, id)
  }

  /** Renumbering is one-to-one and onto. */
  lemma RenumberOrig(s: State, k: int)
    requires StateOk(s, {}, 0) && 0 <= k < s.nNew + s.nTried
    ensures Renumber(s, Orig(s, k)) == k
  {
    hide StateOk;
    ListFacts(s);
    IdRange(s);
    var id := Orig(s, k);
    RankFinds(s.infos, s.infos[id].inTried, id, s.count);
    IdsExact(s.infos, s.infos[id].inTried, s.count);
  }

  lemma RenumberInjective(s: State, x: int, y: int)
    requires StateOk(s, {}, 0) && x in s.infos && y in s.infos && Renumber(s, x) == Renumber(s, y)
    ensures x == y
  {
    assert Orig(s, Renumber(s, x)) == x && Orig(s, Renumber(s, y)) == y;
  }

  // ---- the state read back, as far as n entries and the slots before (b, i) ----

  ghost predicate Seen(p: Slot, b: int, i: int) {
    p.bucket < b || (p.bucket == b && p.pos < i)
  }

  lemma SlotFacts(s: State)
    requires StateOk(s, {}, 0)
    ensures Full(s.vvNew, NEW_BUCKETS) && Full(s.vvTried, TRIED_BUCKETS)
    ensures forall p :: p in s.vvNew && s.vvNew[p] != -1 ==>
      && s.vvNew[p] in s.infos && !s.infos[s.vvNew[p]].inTried
      && p.pos == s.h.NewPos(s.key, s.ServiceOf(s.vvNew[p]), p.bucket)
    ensures forall p :: p in s.vvTried && s.vvTried[p] != -1 ==>
      s.vvTried[p] in s.infos && s.infos[s.vvTried[p]].inTried && p == s.TriedSlotOf(s.vvTried[p])
    ensures forall a :: a in s.addrs ==> s.addrs[a] in s.infos && s.infos[s.addrs[a]].Net() == a
  {
  }

  ghost function SeenBuckets(s: State, id: int, b: int, i: int): set<int>
    requires StateOk(s, {}, 0) && id in s.infos
  {
    set c | c in Buckets(s.h, s.key, s.ServiceOf(id), s.vvNew, id) &&
            Seen(Slot(c, s.h.NewPos(s.key, s.ServiceOf(id), c)), b, i)
  }

  ghost function PartInfo(s: State, k: int, b: int, i: int): Info
    requires StateOk(s, {}, 0) && 0 <= k < s.nNew + s.nTried
  {
    var id := Orig(s, k);
    s.infos[id].(lastTry := 0, lastCountAttempt := 0, randomPos := k,
                 refCount := if s.infos[id].inTried then 0 else |SeenBuckets(s, id, b, i)|)
  }

  ghost function PartInfos(s: State, n: int, b: int, i: int): Infos
    requires StateOk(s, {}, 0) && 0 <= n <= s.nNew + s.nTried
  {
    map k | 0 <= k < n :: PartInfo(s, k, b, i)
  }

  ghost function PartAddrs(s: State, n: int): map<NetAddr, int>
    requires StateOk(s, {}, 0)
  {
    SlotFacts(s);
    map a | a in s.addrs && Renumber(s, s.addrs[a]) < n :: Renumber(s, s.addrs[a])
  }

  ghost function PartNew(s: State, b: int, i: int): Table
    requires StateOk(s, {}, 0)
  {
    SlotFacts(s);
    map p | p in s.vvNew :: if s.vvNew[p] != -1 && Seen(p, b, i) then Renumber(s, s.vvNew[p]) else -1
  }

  ghost function PartTried(s: State, n: int): Table
    requires StateOk(s, {}, 0)
  {
    SlotFacts(s);
    map p | p in s.vvTried ::
      if s.vvTried[p] != -1 && Renumber(s, s.vvTried[p]) < n then Renumber(s, s.vvTried[p]) else -1
  }

  ghost function Part(s: State, n: int, b: int, i: int): State
    requires StateOk(s, {}, 0) && 0 <= n <= s.nNew + s.nTried
  {
    State(s.h, s.key, PartInfos(s, n, b, i), PartAddrs(s, n), seq(n, k => k), PartNew(s, b, i), PartTried(s, n),
          n, s.nNew, s.nTried)
  }

  /** The same state with the entries numbered afresh and the unsaved statistics reset. */
  ghost function Renumbered(s: State): State
    requires StateOk(s, {}, 0)
  {
    ListFacts(s);
    Part(s, s.nNew + s.nTried, NEW_BUCKETS, 0)
  }

  // ---- the renumbered state is consistent ----

  /** Nothing but the numbers and the unsaved statistics changes. */
  lemma RenumberedEntries(s: State)
    requires StateOk(s, {}, 0)
    ensures var t := Renumbered(s);
      && t.h == s.h && t.key == s.key && t.nNew == s.nNew && t.nTried == s.nTried
      && 0 <= s.nNew && 0 <= s.nTried && t.count == |t.random| == s.nNew + s.nTried
      && (forall k :: 0 <= k < t.count ==> t.random[k] == k)
      && (forall k :: k in t.infos <==> 0 <= k < t.count)
    ensures forall k :: 0 <= k < s.nNew + s.nTried ==>
      Renumbered(s).infos[k] == s.infos[Orig(s, k)].(lastTry := 0, lastCountAttempt := 0, randomPos := k)
  {
    hide StateOk, Orig, PartInfo;
    ListFacts(s);
    forall k | 0 <= k < s.nNew + s.nTried
      ensures Renumbered(s).infos[k] == s.infos[Orig(s, k)].(lastTry := 0, lastCountAttempt := 0, randomPos := k)
    {
      RenumberedEntry(s, k);
    }
  }

  /** Once all buckets are read an entry has all its references again. */
  lemma RenumberedEntry(s: State, k: int)
    requires StateOk(s, {}, 0) && 0 <= k < s.nNew + s.nTried
    ensures PartInfo(s, k, NEW_BUCKETS, 0) ==
      s.infos[Orig(s, k)].(lastTry := 0, lastCountAttempt := 0, randomPos := k)
  {
    hide Orig;
    var id := Orig(s, k);
    EntryState(s, {}, 0, id);
    assert SeenBuckets(s, id, NEW_BUCKETS, 0) == Buckets(s.h, s.key, s.ServiceOf(id), s.vvNew, id);
  }

  lemma RenumberedSlots(s: State)
    requires StateOk(s, {}, 0)
    ensures var t := Renumbered(s);
      && t.vvNew.Keys == s.vvNew.Keys && t.vvTried.Keys == s.vvTried.Keys
      && (forall p :: p in s.vvNew ==> t.vvNew[p] == if s.vvNew[p] == -1 then -1 else Renumber(s, s.vvNew[p]))
      && (forall p :: p in s.vvTried ==> t.vvTried[p] == if s.vvTried[p] == -1 then -1 else Renumber(s, s.vvTried[p]))
      && t.addrs.Keys == s.addrs.Keys
      && (forall a :: a in s.addrs ==> t.addrs[a] == Renumber(s, s.addrs[a]))
  {
    hide StateOk;
    SlotFacts(s);
  }

  lemma RefState(s: State, id: int)
    requires StateOk(s, {}, 0) && id in s.infos && !s.infos[id].inTried
    ensures Full(s.vvNew, NEW_BUCKETS)
    ensures s.infos[id].refCount == |Buckets(s.h, s.key, s.ServiceOf(id), s.vvNew, id)|
  {
  }

  lemma RenumberedRefs(s: State)
    requires StateOk(s, {}, 0)
    ensures NewOk(s.h, s.key, Renumbered(s).infos, Renumbered(s).vvNew)
    ensures RefOk(s.h, s.key, Renumbered(s).infos, Renumbered(s).vvNew)
  {
    hide StateOk, Renumbered, Renumber, Orig;
    RenumberedEntries(s);
    RenumberedSlots(s);
    SlotFacts(s);
    var t := Renumbered(s);
    forall k | k in t.infos && !t.infos[k].inTried
      ensures t.infos[k].refCount == |Buckets(s.h, s.key, t.infos[k].address.service, t.vvNew, k)|
    {
      var id := Orig(s, k);
      RenumberOrig(s, k);
      RefState(s, id);
      NoEntryMinusOne(s, {}, 0);
      var service := s.ServiceOf(id);
      forall b | 0 <= b < NEW_BUCKETS
        ensures b in Buckets(s.h, s.key, service, t.vvNew, k) <==> b in Buckets(s.h, s.key, service, s.vvNew, id)
      {
        var p := Slot(b, s.h.NewPos(s.key, service, b));
        if s.vvNew[p] != -1 && t.vvNew[p] == k {
          RenumberInjective(s, s.vvNew[p], id);
        }
      }
      assert Buckets(s.h, s.key, service, t.vvNew, k) == Buckets(s.h, s.key, service, s.vvNew, id);
    }
  }

  lemma RenumberedTried(s: State)
    requires StateOk(s, {}, 0)
    ensures TriedOk(s.h, s.key, Renumbered(s).infos, Renumbered(s).vvTried)
  {
    hide StateOk, Renumbered, Renumber, Orig;
    RenumberedEntries(s);
    RenumberedSlots(s);
    SlotFacts(s);
    var t := Renumbered(s);
    forall k | k in t.infos && t.infos[k].inTried
      ensures t.vvTried[s.h.TriedSlot(s.key, t.infos[k].address.service)] == k
    {
      RenumberOrig(s, k);
      TriedSlotEntry(s, {}, 0, Orig(s, k));
      EntryState(s, {}, 0, Orig(s, k));
    }
  }

  lemma RenumberedRandom(s: State)
    requires StateOk(s, {}, 0)
    ensures RandomOk(Renumbered(s).infos, Renumbered(s).random)
  {
    hide StateOk, Renumbered, Renumber, Orig;
    RenumberedEntries(s);
  }

  lemma RenumberedRest(s: State)
    requires StateOk(s, {}, 0)
    ensures var t := Renumbered(s);
      AddrOk(t.infos, t.addrs) && RandomOk(t.infos, t.random) && EntriesOk(t.infos, {}, t.count)
  {
    hide StateOk, Renumbered, Renumber, Orig, RandomOk, Full;
    RenumberedRandom(s);
    RenumberedEntries(s);
    RenumberedSlots(s);
    SlotFacts(s);
    var t := Renumbered(s);
    forall k | k in t.infos
      ensures t.infos[k].Net() in t.addrs && t.addrs[t.infos[k].Net()] == k
      ensures EntryOk(t.infos[k], false)
    {
      RenumberOrig(s, k);
      EntryState(s, {}, 0, Orig(s, k));
    }
  }

  lemma RenumberedCounts(s: State)
    requires StateOk(s, {}, 0)
    ensures CountsOk(Renumbered(s), {}, 0)
  {
    hide StateOk, Renumbered, Renumber, Orig;
    ListFacts(s);
    RenumberedEntries(s);
    var t := Renumbered(s);

    CountTo(s.nNew);
    CountTo(s.nNew + s.nTried);
    assert forall k :: k in NewIds(t.infos) <==> k in UpTo(s.nNew);
    assert NewIds(t.infos) - {} == UpTo(s.nNew);
    assert forall k :: k in TriedIds(t.infos) <==> k in UpTo(s.nNew + s.nTried) - UpTo(s.nNew);
    assert TriedIds(t.infos) == UpTo(s.nNew + s.nTried) - UpTo(s.nNew);
    assert UpTo(s.nNew) <= UpTo(s.nNew + s.nTried);
  }

  ghost function UpTo(n: int): set<int> { set k: int {:trigger 0 <= k} | 0 <= k < n }

  lemma {:induction false} CountTo(n: nat)
    ensures |UpTo(n)| == n
  {
    if n > 0 {
      CountTo(n - 1);
      assert UpTo(n) == UpTo(n - 1) + {n - 1};
    }
  }

  /** Reading back what was written gives a consistent state again. */
  lemma RenumberedOk(s: State)
    requires StateOk(s, {}, 0)
    ensures StateOk(Renumbered(s), {}, 0)
  {
    RenumberedRefs(s);
    RenumberedTried(s);
    RenumberedRest(s);
    RenumberedCounts(s);
    ListFacts(s);
    hide NewOk, RefOk, TriedOk, AddrOk, RandomOk, EntriesOk, CountsOk;
  }

  // ---- writing ----

  ghost function Header(s: State): seq<Token> {
    [Num(1), Num(32), Key(s.key), Num(s.nNew), Num(s.nTried), Num(FlipBit30(NEW_BUCKETS))]
  }

  /** The index written for a filled slot. */
  ghost function IndexOf(s: State, p: Slot): Token
    requires StateOk(s, {}, 0)
  {
    SlotFacts(s);
    Num(if p in s.vvNew && s.vvNew[p] != -1 then Renumber(s, s.vvNew[p]) else -1)
  }

  ghost function Indexes(s: State, b: int, positions: seq<int>): (tokens: seq<Token>)
    requires StateOk(s, {}, 0)
    ensures |tokens| == |positions|
    ensures forall j :: 0 <= j < |positions| ==> tokens[j] == IndexOf(s, Slot(b, positions[j]))
  {
    if positions == [] then []
    else
      var n := |positions| - 1;
      Indexes(s, b, positions[..n]) + [IndexOf(s, Slot(b, positions[n]))]
  }

  ghost function BucketTokens(s: State, b: int): seq<Token>
    requires StateOk(s, {}, 0) && 0 <= b < NEW_BUCKETS
  {
    SlotFacts(s);
    var positions := Filled(s.vvNew, b, BUCKET_SIZE);
    [Num(|positions|)] + Indexes(s, b, positions)
  }

  ghost function BucketsTokens(s: State, n: nat): seq<Token>
    requires StateOk(s, {}, 0) && n <= NEW_BUCKETS
  {
    if n == 0 then [] else BucketsTokens(s, n - 1) + BucketTokens(s, n - 1)
  }

  ghost function Encode(s: State): seq<Token>
    requires StateOk(s, {}, 0)
  {
    ListFacts(s);
    Header(s) + Entries(s.infos, NewList(s)) + Entries(s.infos, TriedList(s)) + BucketsTokens(s, NEW_BUCKETS)
  }

  ghost function EntriesBelow(s: State, tried: bool, n: nat): seq<Token> {
    IdsExact(s.infos, tried, n);
    assert forall i :: 0 <= i < |Ids(s.infos, tried, n)| ==> Ids(s.infos, tried, n)[i] in Ids(s.infos, tried, n);
    Entries(s.infos, Ids(s.infos, tried, n))
  }

  lemma EntriesBelowStep(s: State, tried: bool, n: nat)
    ensures EntriesBelow(s, tried, n + 1) == EntriesBelow(s, tried, n)
      + (if n in s.infos && s.infos[n].inTried == tried then [Entry(Save(s.infos[n]))] else [])
  {
    var ids, before := Ids(s.infos, tried, n + 1), Ids(s.infos, tried, n);
    if ids != before {
      assert ids[..|ids| - 1] == before;
    }
  }

  method WriteEntries(s: State, tried: bool, prefix: seq<Token>) returns (out: seq<Token>, ranks: map<int, int>)
    requires StateOk(s, {}, 0)
    ensures s.count >= 0 && out == prefix + EntriesBelow(s, tried, s.count)
    ensures forall id :: id in s.infos ==> id in ranks && id >= 0 && ranks[id] == Rank(s.infos, tried, id)
  {
    hide StateOk, EntriesBelow, Rank, Ids;
    IdRange(s);
    ListFacts(s);
    RankZero(s.infos, tried);
    out, ranks := prefix, map[];
    assert EntriesBelow(s, tried, 0) == [] by { EntriesBelowZero(s, tried); }
    var written := 0;
    for id := 0 to s.count
      invariant out == prefix + EntriesBelow(s, tried, id)
      invariant written == Rank(s.infos, tried, id)
      invariant forall x :: x in s.infos && x < id ==> x in ranks && ranks[x] == Rank(s.infos, tried, x)
    {
      EntriesBelowStep(s, tried, id);
      RankStep(s.infos, tried, id, s.count);
      if id in s.infos {
        var info := s.infos[id];
        EntryState(s, {}, 0, id);
        ranks := ranks[id := written];
        if (if tried then info.inTried else info.refCount != 0) {
          assert written != if tried then s.nTried else s.nNew;
          out := out + [Entry(Save(info))];
          written := written + 1;
        }
      }
    }
  }

  lemma RankZero(infos: Infos, tried: bool)
    ensures Rank(infos, tried, 0) == 0
  {
  }

  /** An entry of the list raises the rank of those after it, and its own is below the list's size. */
  lemma RankStep(infos: Infos, tried: bool, id: nat, n: nat)
    requires id < n
    ensures Rank(infos, tried, id + 1) == Rank(infos, tried, id) + (if id in infos && infos[id].inTried == tried then 1 else 0)
    ensures Rank(infos, tried, id + 1) <= |Ids(infos, tried, n)|
  {
    IdsPrefix(infos, tried, id + 1, n);
  }

  lemma EntriesBelowZero(s: State, tried: bool)
    ensures EntriesBelow(s, tried, 0) == []
  {
  }

  /** One more position of a bucket adds its index, if it is filled. */
  lemma IndexesStep(s: State, b: int, i: int)
    requires StateOk(s, {}, 0) && 0 <= b < NEW_BUCKETS && 0 <= i < BUCKET_SIZE && Full(s.vvNew, NEW_BUCKETS)
    ensures Slot(b, i) in s.vvNew
    ensures var id := s.vvNew[Slot(b, i)];
      if id == -1 then Filled(s.vvNew, b, i + 1) == Filled(s.vvNew, b, i)
      else
        && id in s.infos && id >= 0
        && |Filled(s.vvNew, b, i + 1)| == |Filled(s.vvNew, b, i)| + 1
        && Indexes(s, b, Filled(s.vvNew, b, i + 1))
           == Indexes(s, b, Filled(s.vvNew, b, i)) + [Num(Rank(s.infos, false, id))]
  {
    hide StateOk;
    SlotFacts(s);
    IdRange(s);
    var before, after := Filled(s.vvNew, b, i), Filled(s.vvNew, b, i + 1);
    if s.vvNew[Slot(b, i)] != -1 {
      assert after == before + [i] && after[..|before|] == before;
    }
  }

  method WriteBucket(s: State, b: int, ranks: map<int, int>) returns (out: seq<Token>)
    requires StateOk(s, {}, 0) && 0 <= b < NEW_BUCKETS
    requires forall id :: id in s.infos ==> id in ranks && id >= 0 && ranks[id] == Rank(s.infos, false, id)
    ensures out == BucketTokens(s, b)
  {
    hide StateOk, Full, Indexes, Filled, Rank;
    FullTables(s, {}, 0);
    IndexesNone(s, b);
    var size := 0;
    for i := 0 to BUCKET_SIZE
      invariant size == |Filled(s.vvNew, b, i)|
    {
      IndexesStep(s, b, i);
      if s.vvNew[Slot(b, i)] != -1 {
        size := size + 1;
      }
    }
    out := [Num(size)];
    for i := 0 to BUCKET_SIZE
      invariant out == [Num(size)] + Indexes(s, b, Filled(s.vvNew, b, i))
    {
      IndexesStep(s, b, i);
      var id := s.vvNew[Slot(b, i)];
      if id != -1 {
        out := out + [Num(ranks[id])];
      }
    }
  }

  lemma IndexesNone(s: State, b: int)
    requires StateOk(s, {}, 0) && Full(s.vvNew, NEW_BUCKETS) && 0 <= b < NEW_BUCKETS
    ensures Filled(s.vvNew, b, 0) == [] && Indexes(s, b, []) == []
  {
  }

  /** Write the whole state. */
  method Serialize(s: State) returns (out: seq<Token>)
    requires StateOk(s, {}, 0)
    ensures out == Encode(s)
  {
    hide StateOk, BucketTokens;
    ListFacts(s);
    out := [Num(1), Num(32), Key(s.key), Num(s.nNew), Num(s.nTried), Num(FlipBit30(NEW_BUCKETS))];
    var ranks, unused;
    out, ranks := WriteEntries(s, false, out);
    out, unused := WriteEntries(s, true, out);
    ghost var entries := out;
    for b := 0 to NEW_BUCKETS
      invariant out == entries + BucketsTokens(s, b)
    {
      var tokens := WriteBucket(s, b, ranks);
      out := out + tokens;
    }
  }

  // ---- reading ----

  /** Where the tokens of a bucket start. */
  ghost function BucketStart(s: State, b: nat): int
    requires StateOk(s, {}, 0) && b <= NEW_BUCKETS
  {
    6 + s.nNew + s.nTried + |BucketsTokens(s, b)|
  }

  lemma HeaderAndEntries(s: State)
    requires StateOk(s, {}, 0)
    ensures 0 <= s.nNew && 0 <= s.nTried && |Encode(s)| >= 6 + s.nNew + s.nTried
    ensures Encode(s)[..6] == Header(s)
    ensures forall k :: 0 <= k < s.nNew + s.nTried ==> Encode(s)[6 + k] == Entry(Save(s.infos[Orig(s, k)]))
  {
    hide StateOk;
    ListFacts(s);
  }

  lemma {:induction false} BucketsPrefix(s: State, b: nat, n: nat)
    requires StateOk(s, {}, 0) && b <= n <= NEW_BUCKETS
    ensures BucketsTokens(s, b) <= BucketsTokens(s, n)
  {
    hide StateOk, BucketTokens;
    if b < n {
      BucketsPrefix(s, b, n - 1);
    }
  }

  lemma BucketSlice(s: State, b: nat)
    requires StateOk(s, {}, 0) && b < NEW_BUCKETS
    ensures 0 <= BucketStart(s, b) <= BucketStart(s, b) + |BucketTokens(s, b)| == BucketStart(s, b + 1) <= |Encode(s)|
    ensures Encode(s)[BucketStart(s, b)..BucketStart(s, b + 1)] == BucketTokens(s, b)
  {
    hide StateOk, BucketTokens;
    ListFacts(s);
    BucketsPrefix(s, b + 1, NEW_BUCKETS);
    var all, upto, here := BucketsTokens(s, NEW_BUCKETS), BucketsTokens(s, b), BucketTokens(s, b);
    assert BucketsTokens(s, b + 1) == upto + here;
    hide BucketsTokens;
    assert all[|upto|..|upto| + |here|] == here;
    var front := Header(s) + Entries(s.infos, NewList(s)) + Entries(s.infos, TriedList(s));
    assert Encode(s) == front + all && |front| == 6 + s.nNew + s.nTried;
  }

  lemma BucketAt(s: State, b: nat)
    requires StateOk(s, {}, 0) && b < NEW_BUCKETS && Full(s.vvNew, NEW_BUCKETS)
    ensures var filled, start := Filled(s.vvNew, b, BUCKET_SIZE), BucketStart(s, b);
      && 0 <= start && BucketStart(s, b + 1) == start + 1 + |filled| <= |Encode(s)|
      && Encode(s)[start] == Num(|filled|)
      && forall j :: 0 <= j < |filled| ==> Encode(s)[start + 1 + j] == IndexOf(s, Slot(b, filled[j]))
  {
    hide StateOk, Filled, IndexOf, Encode, BucketStart, Full;
    BucketSlice(s, b);
    var filled, start := Filled(s.vvNew, b, BUCKET_SIZE), BucketStart(s, b);
    var here := Encode(s)[start..BucketStart(s, b + 1)];
    assert here[0] == Num(|filled|);
    forall j | 0 <= j < |filled|
      ensures Encode(s)[start + 1 + j] == IndexOf(s, Slot(b, filled[j]))
    {
      assert here[1 + j] == IndexOf(s, Slot(b, filled[j]));
    }
  }

  lemma {:induction false} FilledExact(t: Table, b: int, n: nat)
    requires Full(t, NEW_BUCKETS) && 0 <= b < NEW_BUCKETS && n <= BUCKET_SIZE
    ensures forall i :: i in Filled(t, b, n) <==> 0 <= i < n && t[Slot(b, i)] != -1
    ensures forall i, j :: 0 <= i < j < |Filled(t, b, n)| ==> Filled(t, b, n)[i] < Filled(t, b, n)[j]
  {
    if n > 0 {
      FilledExact(t, b, n - 1);
      var before, after := Filled(t, b, n - 1), Filled(t, b, n);
      forall i, j | 0 <= i < j < |after|
        ensures after[i] < after[j]
      {
        assert after[i] == before[i] && before[i] in before;
      }
    }
  }

  lemma SeenNothing(s: State, id: int)
    requires StateOk(s, {}, 0) && id in s.infos
    ensures SeenBuckets(s, id, 0, 0) == {}
  {
  }

  /** Loading one more entry. */
  lemma LoadStep(s: State, n: int)
    requires StateOk(s, {}, 0) && 0 <= n < s.nNew + s.nTried
    ensures var saved := Save(s.infos[Orig(s, n)]);
      PartInfos(s, n + 1, 0, 0) == PartInfos(s, n, 0, 0)[n := Load(saved).(randomPos := n, inTried := s.nNew <= n)]
  {
    hide StateOk, Orig, SeenBuckets;
    var id := Orig(s, n);
    EntryState(s, {}, 0, id);
    SeenNothing(s, id);
    assert PartInfo(s, n, 0, 0) == Load(Save(s.infos[id])).(randomPos := n, inTried := s.nNew <= n);
    hide PartInfo;
  }

  lemma LoadAddrStep(s: State, n: int)
    requires StateOk(s, {}, 0) && 0 <= n < s.nNew + s.nTried
    ensures PartAddrs(s, n + 1) == PartAddrs(s, n)[s.infos[Orig(s, n)].Net() := n]
  {
    hide StateOk, Renumber, Orig;
    var id := Orig(s, n);
    EntryState(s, {}, 0, id);
    RenumberOrig(s, n);
    SlotFacts(s);
    forall a | a in s.addrs && Renumber(s, s.addrs[a]) == n
      ensures a == s.infos[id].Net()
    {
      RenumberInjective(s, s.addrs[a], id);
    }
  }

  lemma LoadTriedStep(s: State, n: int)
    requires StateOk(s, {}, 0) && 0 <= n < s.nNew + s.nTried
    ensures n < s.nNew ==> PartTried(s, n + 1) == PartTried(s, n)
    ensures n >= s.nNew ==> var p := s.TriedSlotOf(Orig(s, n));
      && p in PartTried(s, n) && PartTried(s, n)[p] == -1
      && PartTried(s, n + 1) == PartTried(s, n)[p := n]
  {
    hide StateOk, Renumber, Orig;
    var id := Orig(s, n);
    RenumberOrig(s, n);
    SlotFacts(s);
    NoEntryMinusOne(s, {}, 0);
    TriedSlotEntry(s, {}, 0, id);
    forall p | p in s.vvTried && s.vvTried[p] != -1 && Renumber(s, s.vvTried[p]) == n
      ensures s.vvTried[p] == id && p == s.TriedSlotOf(id)
    {
      RenumberInjective(s, s.vvTried[p], id);
    }
  }

  lemma SameSeenBuckets(s: State, id: int, b: int, i: int, b': int, i': int)
    requires StateOk(s, {}, 0) && id in s.infos
    requires forall p :: p in s.vvNew && s.vvNew[p] != -1 ==> (Seen(p, b, i) <==> Seen(p, b', i'))
    ensures SeenBuckets(s, id, b, i) == SeenBuckets(s, id, b', i')
  {
    hide StateOk;
    FullTables(s, {}, 0);
    NoEntryMinusOne(s, {}, 0);
    assert forall c :: c in SeenBuckets(s, id, b, i) <==> c in SeenBuckets(s, id, b', i');
  }

  /** Positions without an entry add nothing. */
  lemma SameSeen(s: State, n: int, b: int, i: int, b': int, i': int)
    requires StateOk(s, {}, 0) && 0 <= n <= s.nNew + s.nTried
    requires forall p :: p in s.vvNew && s.vvNew[p] != -1 ==> (Seen(p, b, i) <==> Seen(p, b', i'))
    ensures PartNew(s, b, i) == PartNew(s, b', i') && PartInfos(s, n, b, i) == PartInfos(s, n, b', i')
  {
    hide StateOk, Renumber, Orig, Seen, SeenBuckets;
    forall k | 0 <= k < n
      ensures PartInfo(s, k, b, i) == PartInfo(s, k, b', i')
    {
      SameSeenBuckets(s, Orig(s, k), b, i, b', i');
    }
  }

  /** A filled position gives its slot and one more reference to its entry. */
  lemma TakeSlotNew(s: State, p: Slot)
    requires StateOk(s, {}, 0) && p in s.vvNew && s.vvNew[p] != -1
    ensures s.vvNew[p] in s.infos
    ensures p in PartNew(s, p.bucket, p.pos) && PartNew(s, p.bucket, p.pos)[p] == -1
    ensures PartNew(s, p.bucket, p.pos + 1) == PartNew(s, p.bucket, p.pos)[p := Renumber(s, s.vvNew[p])]
  {
    hide StateOk, Renumber;
    SlotFacts(s);
    forall q | q in s.vvNew && q != p
      ensures Seen(q, p.bucket, p.pos + 1) <==> Seen(q, p.bucket, p.pos)
    {
      assert q.bucket != p.bucket || q.pos != p.pos;
    }
  }

  lemma TakeSlotSeen(s: State, p: Slot, id: int)
    requires StateOk(s, {}, 0) && p in s.vvNew && s.vvNew[p] != -1 && id in s.infos
    ensures s.vvNew[p] in s.infos
    ensures SeenBuckets(s, id, p.bucket, p.pos + 1)
         == SeenBuckets(s, id, p.bucket, p.pos) + (if s.vvNew[p] == id then {p.bucket} else {})
    ensures p.bucket !in SeenBuckets(s, id, p.bucket, p.pos) || s.vvNew[p] != id
    ensures SeenBuckets(s, id, p.bucket, p.pos + 1) <= Buckets(s.h, s.key, s.ServiceOf(id), s.vvNew, id)
  {
    hide StateOk;
    SlotFacts(s);
    if s.vvNew[p] == id {
      assert p == Slot(p.bucket, s.h.NewPos(s.key, s.ServiceOf(id), p.bucket));
    }
  }

  lemma TakeSlotInfos(s: State, n: int, p: Slot)
    requires StateOk(s, {}, 0) && p in s.vvNew && s.vvNew[p] != -1 && n == s.nNew + s.nTried
    ensures s.vvNew[p] in s.infos
    ensures var k := Renumber(s, s.vvNew[p]);
      var before := PartInfos(s, n, p.bucket, p.pos);
      && k < s.nNew && k in before && before[k].refCount < MAX_REFS
      && before[k].address.service == s.ServiceOf(s.vvNew[p])
      && PartInfos(s, n, p.bucket, p.pos + 1) == before[k := before[k].(refCount := before[k].refCount + 1)]
  {
    hide StateOk, Renumber, Orig, SeenBuckets, Buckets, Full;
    SlotFacts(s);
    var id := s.vvNew[p];
    var k := Renumber(s, id);
    EntryState(s, {}, 0, id);
    RefState(s, id);
    TakeSlotSeen(s, p, id);
    SubsetSize(SeenBuckets(s, id, p.bucket, p.pos + 1), Buckets(s.h, s.key, s.ServiceOf(id), s.vvNew, id));
    var before, after := PartInfos(s, n, p.bucket, p.pos), PartInfos(s, n, p.bucket, p.pos + 1);
    forall j | 0 <= j < n
      ensures after[j] == if j == k then before[k].(refCount := before[k].refCount + 1) else before[j]
    {
      TakeSlotSeen(s, p, Orig(s, j));
      RenumberOrig(s, j);
    }
  }

  /** Read the entries: the new ones keep their place in the stream as id, the tried ones follow. */
  method ReadEntries(h: Hashes, key: nat, nNew: int, nTried: int, tokens: seq<Token>, ghost s: State)
    returns (infos: Infos, addrs: map<NetAddr, int>, random: seq<int>, vvTried: Table, lost: int)
    requires StateOk(s, {}, 0) && tokens == Encode(s)
    requires s.h == h && s.key == key && s.nNew == nNew && s.nTried == nTried
    ensures 0 <= nNew && 0 <= nTried && lost == 0
    ensures infos == PartInfos(s, nNew + nTried, 0, 0) && addrs == PartAddrs(s, nNew + nTried)
    ensures random == seq(nNew + nTried, k => k) && vvTried == PartTried(s, nNew + nTried)
  {
    hide StateOk, PartInfos, PartAddrs, PartTried, Orig, Encode;
    HeaderAndEntries(s);
    NothingRead(s);
    infos, addrs, random, vvTried, lost := map[], map[], [], EmptyTable(TRIED_BUCKETS), 0;
    for n := 0 to nNew
      invariant infos == PartInfos(s, n, 0, 0) && addrs == PartAddrs(s, n)
      invariant random == seq(n, k => k) && vvTried == PartTried(s, n)
    {
      LoadStep(s, n);
      LoadAddrStep(s, n);
      LoadTriedStep(s, n);
      var info := Load(tokens[6 + n].saved);
      infos := infos[n := info.(randomPos := |random|)];
      addrs := addrs[info.Net() := n];
      random := random + [n];
    }
    var count := nNew;
    for n := 0 to nTried
      invariant count == nNew + n && lost == 0
      invariant infos == PartInfos(s, count, 0, 0) && addrs == PartAddrs(s, count)
      invariant random == seq(count, k => k) && vvTried == PartTried(s, count)
    {
      LoadStep(s, count);
      LoadAddrStep(s, count);
      LoadTriedStep(s, count);
      var info := Load(tokens[6 + nNew + n].saved);
      var p := h.TriedSlot(key, info.address.service);
      if vvTried[p] == -1 {
        infos := infos[count := info.(randomPos := |random|, inTried := true)];
        addrs := addrs[info.Net() := count];
        random := random + [count];
        vvTried := vvTried[p := count];
        count := count + 1;
      } else {
        lost := lost + 1;
      }
    }
  }

  lemma EmptyTableUnique(t: Table, buckets: int)
    requires Full(t, buckets) && forall p :: p in t ==> t[p] == -1
    ensures t == EmptyTable(buckets)
  {
    var e := EmptyTable(buckets);
    forall p | p in t
      ensures p in e
    {
      assert p == Slot(p.bucket, p.pos);
    }
    assert t.Keys == e.Keys;
  }

  lemma NothingRead(s: State)
    requires StateOk(s, {}, 0) && 0 <= s.nNew + s.nTried
    ensures PartInfos(s, 0, 0, 0) == map[] && PartAddrs(s, 0) == map[]
    ensures PartTried(s, 0) == EmptyTable(TRIED_BUCKETS) && PartNew(s, 0, 0) == EmptyTable(NEW_BUCKETS)
  {
    hide StateOk, Renumber, EmptyTable;
    SlotFacts(s);
    EmptyTableUnique(PartTried(s, 0), TRIED_BUCKETS);
    EmptyTableUnique(PartNew(s, 0, 0), NEW_BUCKETS);
  }

  /** Read the indexes of one bucket back into the slots they came from. */
  method ReadBucket(h: Hashes, key: nat, nNew: int, tokens: seq<Token>, start: int, b: int,
                    infosIn: Infos, vvNewIn: Table, ghost s: State, ghost n: int)
    returns (next: int, infos: Infos, vvNew: Table)
    requires StateOk(s, {}, 0) && tokens == Encode(s) && s.h == h && s.key == key && s.nNew == nNew
    requires 0 <= b < NEW_BUCKETS && start == BucketStart(s, b) && n == s.nNew + s.nTried && n >= 0
    requires infosIn == PartInfos(s, n, b, 0) && vvNewIn == PartNew(s, b, 0)
    ensures next == BucketStart(s, b + 1)
    ensures infos == PartInfos(s, n, b + 1, 0) && vvNew == PartNew(s, b + 1, 0)
  {
    hide StateOk, PartInfos, PartNew, Orig, Encode, BucketStart, Renumber, Filled;
    SlotFacts(s);
    BucketAt(s, b);
    FilledExact(s.vvNew, b, BUCKET_SIZE);
    ghost var filled := Filled(s.vvNew, b, BUCKET_SIZE);
    infos, vvNew := infosIn, vvNewIn;
    var size := tokens[start].n;
    ghost var i := 0;
    for j := 0 to size
      invariant i == if j == 0 then 0 else filled[j - 1] + 1
      invariant infos == PartInfos(s, n, b, i) && vvNew == PartNew(s, b, i)
    {
      ghost var p := Slot(b, filled[j]);
      assert filled[j] in filled;
      forall q | q in s.vvNew && s.vvNew[q] != -1
        ensures Seen(q, b, i) <==> Seen(q, b, p.pos)
      {
        NoneBetween(s.vvNew, b, filled, j, q);
      }
      SameSeen(s, n, b, i, b, p.pos);
      TakeSlotNew(s, p);
      TakeSlotInfos(s, n, p);
      var index := tokens[start + 1 + j].n;
      assert index == Renumber(s, s.vvNew[p]);
      if 0 <= index < nNew {
        var slot := Slot(b, h.NewPos(key, infos[index].address.service, b));
        assert slot == p;
        if vvNew[slot] == -1 && infos[index].refCount < MAX_REFS {
          infos := infos[index := infos[index].(refCount := infos[index].refCount + 1)];
          vvNew := vvNew[slot := index];
        }
      }
      i := filled[j] + 1;
    }
    next := start + 1 + size;
    forall q | q in s.vvNew && s.vvNew[q] != -1
      ensures Seen(q, b, i) <==> Seen(q, b + 1, 0)
    {
      NoneBetween(s.vvNew, b, filled, size, q);
    }
    SameSeen(s, n, b, i, b + 1, 0);
  }

  /** No filled position lies between two neighbours in the list of filled ones. */
  lemma NoneBetween(t: Table, b: int, filled: seq<int>, j: int, q: Slot)
    requires Full(t, NEW_BUCKETS) && 0 <= b < NEW_BUCKETS && 0 <= j <= |filled|
    requires forall i :: i in filled <==> 0 <= i < BUCKET_SIZE && t[Slot(b, i)] != -1
    requires forall i, k :: 0 <= i < k < |filled| ==> filled[i] < filled[k]
    requires q in t && t[q] != -1
    ensures var i := if j == 0 then 0 else filled[j - 1] + 1;
      && (j < |filled| ==> (Seen(q, b, i) <==> Seen(q, b, filled[j])))
      && (j == |filled| ==> (Seen(q, b, i) <==> Seen(q, b + 1, 0)))
  {
    if q.bucket == b {
      assert q == Slot(b, q.pos);
      var m :| 0 <= m < |filled| && filled[m] == q.pos;
    }
  }

  /** Reading a written state gives it back up to the numbering of the entries, and loses nothing. */
  method Unserialize(h: Hashes, tokens: seq<Token>, ghost s: State) returns (t: State, lost: int)
    requires StateOk(s, {}, 0) && tokens == Encode(s) && s.h == h
    ensures t == Renumbered(s) && lost == 0
  {
    hide StateOk, PartInfos, PartNew, PartTried, PartAddrs, Encode, Renumber, EmptyTable;
    HeaderAndEntries(s);
    HeaderTokens(s);
    NothingRead(s);
    assert forall i :: 0 <= i < 6 ==> tokens[i] == tokens[..6][i];
    var key, nNew, nTried := tokens[2].key, tokens[3].n, tokens[4].n;
    var buckets := FlipBit30(tokens[5].n);
    assert tokens[0].n == 1 && tokens[1].n == 32 && buckets == NEW_BUCKETS;
    SizeLimits(s);
    assert nNew <= NEW_BUCKETS * BUCKET_SIZE && nTried <= TRIED_BUCKETS * BUCKET_SIZE;
    var infos, addrs, random, vvTried;
    infos, addrs, random, vvTried, lost := ReadEntries(h, key, nNew, nTried, tokens, s);
    var vvNew := EmptyTable(NEW_BUCKETS);
    var at := 6 + nNew + nTried;
    assert at == BucketStart(s, 0);
    for b := 0 to buckets
      invariant at == BucketStart(s, b)
      invariant infos == PartInfos(s, nNew + nTried, b, 0) && vvNew == PartNew(s, b, 0)
    {
      at, infos, vvNew := ReadBucket(h, key, nNew, tokens, at, b, infos, vvNew, s, nNew + nTried);
    }
    t := State(h, key, infos, addrs, random, vvNew, vvTried, nNew + nTried, nNew, nTried);
    // Nothing is left without a reference, so there is nothing to prune.
    RenumberedEntries(s);
    ReferencedEntries(s);
    for id := 0 to nNew + nTried
      invariant lost == 0
    {
      if !infos[id].inTried && infos[id].refCount == 0 {
        lost := lost + 1;
      }
    }
  }

  lemma HeaderTokens(s: State)
    requires StateOk(s, {}, 0)
    ensures BucketsTokens(s, 0) == []
    ensures |Encode(s)| >= 6 && Encode(s)[..6] == Header(s)
  {
    hide StateOk;
    HeaderAndEntries(s);
  }

  lemma ReferencedEntries(s: State)
    requires StateOk(s, {}, 0)
    ensures forall k :: k in Renumbered(s).infos ==>
      Renumbered(s).infos[k].inTried || Renumbered(s).infos[k].refCount > 0
  {
    hide StateOk, Renumbered;
    RenumberedEntries(s);
    forall k | k in Renumbered(s).infos
      ensures Renumbered(s).infos[k].inTried || Renumbered(s).infos[k].refCount > 0
    {
      EntryState(s, {}, 0, Orig(s, k));
    }
  }

  // ---- the size limits ----

  /** The slots before position i of bucket b. */
  ghost function SlotsBefore(b: nat, i: nat): set<Slot> {
    set c: nat, p: nat | c <= b && p < BUCKET_SIZE && (c < b || p < i) :: Slot(c, p)
  }

  lemma {:induction false} SlotCount(b: nat, i: nat)
    requires i <= BUCKET_SIZE
    ensures |SlotsBefore(b, i)| == b * BUCKET_SIZE + i
    decreases b, i
  {
    if i > 0 {
      SlotCount(b, i - 1);
      assert SlotsBefore(b, i) == SlotsBefore(b, i - 1) + {Slot(b, i - 1)};
    } else if b > 0 {
      SlotCount(b - 1, BUCKET_SIZE);
      assert SlotsBefore(b, 0) == SlotsBefore(b - 1, BUCKET_SIZE);
    } else {
      assert SlotsBefore(0, 0) == {};
    }
  }

  lemma {:induction false} ImageSmaller(t: Table, slots: set<Slot>)
    requires slots <= t.Keys
    ensures |set p | p in slots :: t[p]| <= |slots|
  {
    var image := set p | p in slots :: t[p];
    if slots == {} {
      assert image == {};
    } else {
      var p :| p in slots;
      ImageSmaller(t, slots - {p});
      assert image == (set q | q in slots - {p} :: t[q]) + {t[p]};
    }
  }

  /** A table cannot hold more ids than it has slots. */
  lemma TableLimit(t: Table, buckets: nat, ids: set<int>)
    requires Full(t, buckets) && forall id :: id in ids ==> exists p :: p in t && t[p] == id
    ensures |ids| <= buckets * BUCKET_SIZE
  {
    var image := set p | p in t.Keys :: t[p];
    assert forall id :: id in ids ==> id in image;
    SubsetSize(ids, image);
    ImageSmaller(t, t.Keys);
    forall p | p in t
      ensures p in SlotsBefore(buckets, 0)
    {
      assert p == Slot(p.bucket, p.pos);
    }
    assert t.Keys == SlotsBefore(buckets, 0);
    SlotCount(buckets, 0);
  }

  /** A consistent state never exceeds the limits that reading enforces. */
  lemma SizeLimits(s: State)
    requires StateOk(s, {}, 0)
    ensures s.nNew <= NEW_BUCKETS * BUCKET_SIZE && s.nTried <= TRIED_BUCKETS * BUCKET_SIZE
  {
    hide StateOk;
    CountFacts(s);
    FullTables(s, {}, 0);
    forall id | id in NewIds(s.infos)
      ensures exists p :: p in s.vvNew && s.vvNew[p] == id
    {
      FloatingNowhere(s, {}, 0, id);
    }
    forall id | id in TriedIds(s.infos)
      ensures exists p :: p in s.vvTried && s.vvTried[p] == id
    {
      TriedSlotEntry(s, {}, 0, id);
    }
    TableLimit(s.vvNew, NEW_BUCKETS, NewIds(s.infos) - {});
    TableLimit(s.vvTried, TRIED_BUCKETS, TriedIds(s.infos));
  }
}
