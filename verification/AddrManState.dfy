/**
 The state of the address manager of src/addrman.h: the entries, the three indexes over
 them, the two bucket tables and the counters, with the consistency conditions that
 src/addrman.cpp checks in its own debugging walk.
 */
module AddrManState {

  const NEW_BUCKETS := 1024
  const TRIED_BUCKETS := 256
  const BUCKET_SIZE := 64
  const MAX_REFS := 8

  datatype NetAddr = NetAddr(ip: nat)

  datatype Service = Service(net: NetAddr, port: nat)

  datatype Address = Address(service: Service, services: bv64, time: int)

  datatype Info = Info(
    address: Address,
    source: NetAddr,
    lastTry: int,
    lastCountAttempt: int,
    lastSuccess: int,
    attempts: int,
    refCount: int,
    inTried: bool,
    randomPos: int)
  {
    function Net(): NetAddr { address.service.net }

    /** Whether the statistics are bad enough for the entry to be deleted. */
    predicate IsTerrible(now: int) {
      if lastTry != 0 && lastTry >= now - 60 then false
      else if address.time > now + 10 * 60 then true
      else if address.time == 0 || now - address.time > 30 * 24 * 60 * 60 then true
      else if lastSuccess == 0 && attempts >= 3 then true
      else now - lastSuccess > 7 * 24 * 60 * 60 && attempts >= 10
    }
  }

  /** An entry is terrible unless it was tried within the last minute, or its time is set and between
      thirty days ago and ten minutes ahead, with fewer than three attempts if none succeeded and
      fewer than ten if the last success is over a week old. */
  lemma TerribleMeans(info: Info, now: int)
    ensures !info.IsTerrible(now) <==>
      || (info.lastTry != 0 && now - info.lastTry <= 60)
      || (&& info.address.time != 0 && now - 2592000 <= info.address.time <= now + 600
          && (info.attempts < 3 || info.lastSuccess != 0)
          && (info.attempts < 10 || now - info.lastSuccess <= 604800))
  {
  }

  function NewInfo(address: Address, source: NetAddr): Info {
    Info(address, source, 0, 0, 0, 0, 0, false, -1)
  }

  type Infos = map<int, Info>

  datatype Slot = Slot(bucket: int, pos: int)

  /** A bucket table, with -1 in the empty slots. */
  type Table = map<Slot, int>

  /** The keyed hashes, left uninterpreted. */
  datatype Hashes = Hashes(
    tried: (nat, Service) -> nat,
    fromSource: (nat, Service, NetAddr) -> nat,
    position: (nat, Service, bool, int) -> nat)
  {
    function TriedSlot(key: nat, service: Service): Slot {
      var bucket := tried(key, service) % TRIED_BUCKETS;
      Slot(bucket, position(key, service, false, bucket) % BUCKET_SIZE)
    }

    function NewPos(key: nat, service: Service, bucket: int): int {
      position(key, service, true, bucket) % BUCKET_SIZE
    }

    function NewSlot(key: nat, service: Service, source: NetAddr): Slot {
      var bucket := fromSource(key, service, source) % NEW_BUCKETS;
      Slot(bucket, NewPos(key, service, bucket))
    }
  }

  function EmptyTable(buckets: int): Table {
    map b, p | 0 <= b < buckets && 0 <= p < BUCKET_SIZE :: Slot(b, p) := -1
  }

  ghost predicate Full(t: Table, buckets: int) {
    forall s :: s in t <==> 0 <= s.bucket < buckets && 0 <= s.pos < BUCKET_SIZE
  }

  /** mapAddr is the exact inverse of the addresses in mapInfo. */
  ghost predicate AddrOk(infos: Infos, addrs: map<NetAddr, int>) {
    && (forall id :: id in infos ==> infos[id].Net() in addrs && addrs[infos[id].Net()] == id)
    && (forall a :: a in addrs ==> addrs[a] in infos && infos[addrs[a]].Net() == a)
  }

  /** vRandom lists every id once, and each entry knows its place. */
  ghost predicate RandomOk(infos: Infos, random: seq<int>) {
    && (forall id :: id in infos ==> 0 <= infos[id].randomPos < |random| && random[infos[id].randomPos] == id)
    && (forall i :: 0 <= i < |random| ==> random[i] in infos && infos[random[i]].randomPos == i)
  }

  /** Every filled new slot holds an entry that is not tried and hashes to that position. */
  ghost predicate NewOk(h: Hashes, key: nat, infos: Infos, t: Table) {
    && Full(t, NEW_BUCKETS)
    && forall s :: s in t && t[s] != -1 ==>
         && t[s] in infos && !infos[t[s]].inTried
         && s.pos == h.NewPos(key, infos[t[s]].address.service, s.bucket)
  }

  /** The new buckets that hold an entry. */
  ghost function Buckets(h: Hashes, key: nat, service: Service, t: Table, id: int): set<int>
    requires Full(t, NEW_BUCKETS)
  {
    set b | 0 <= b < NEW_BUCKETS && t[Slot(b, h.NewPos(key, service, b))] == id
  }

  /** The reference count is the number of new buckets that hold the entry. */
  ghost predicate RefOk(h: Hashes, key: nat, infos: Infos, t: Table)
    requires Full(t, NEW_BUCKETS)
  {
    forall id :: id in infos && !infos[id].inTried ==>
      infos[id].refCount == |Buckets(h, key, infos[id].address.service, t, id)|
  }

  /** The tried table holds exactly the tried entries, each in the slot it hashes to. */
  ghost predicate TriedOk(h: Hashes, key: nat, infos: Infos, t: Table) {
    && Full(t, TRIED_BUCKETS)
    && (forall s :: s in t && t[s] != -1 ==>
          t[s] in infos && infos[t[s]].inTried && s == h.TriedSlot(key, infos[t[s]].address.service))
    && (forall id :: id in infos && infos[id].inTried ==> t[h.TriedSlot(key, infos[id].address.service)] == id)
  }

  /** Entry by entry; a floating entry is one that is in no table for the moment. */
  ghost predicate EntriesOk(infos: Infos, floating: set<int>, count: int) {
    && floating <= infos.Keys
    && forall id :: id in infos ==> EntryOk(infos[id], id in floating) && 0 <= id < count
  }

  ghost predicate EntryOk(info: Info, floating: bool) {
    && info.lastTry >= 0 && info.lastSuccess >= 0
    && (info.inTried ==> info.refCount == 0 && info.lastSuccess > 0 && !floating)
    && (!info.inTried ==> 0 <= info.refCount <= MAX_REFS && (floating <==> info.refCount == 0))
  }

  ghost function TriedIds(infos: Infos): set<int> { set id | id in infos && infos[id].inTried }

  ghost function NewIds(infos: Infos): set<int> { set id | id in infos && !infos[id].inTried }

  /** The two maps agree except for positions in vRandom. */
  ghost predicate SameButRandom(a: Infos, b: Infos) {
    a.Keys == b.Keys && forall id :: id in a ==> b[id] == a[id].(randomPos := b[id].randomPos)
  }

  /** The entries after one reference of `id` was released; -1 stands for an empty slot. */
  ghost function Released(infos: Infos, id: int): Infos {
    if id !in infos then infos
    else if infos[id].refCount <= 1 then infos - {id}
    else infos[id := infos[id].(refCount := infos[id].refCount - 1)]
  }

  /** Releasing the entry and then deleting it, or not, gives the same entries. */
  lemma ReleasedTwoWays(infos: Infos, id: int, infos': Infos)
    requires id in infos && infos[id].refCount > 0
    requires var released := infos[id := infos[id].(refCount := infos[id].refCount - 1)];
      SameButRandom(if infos[id].refCount == 1 then released - {id} else released, infos')
    ensures SameButRandom(Released(infos, id), infos')
  {
  }

  lemma ReleasedNothing(infos: Infos)
    requires -1 !in infos
    ensures SameButRandom(Released(infos, -1), infos)
  {
  }

  /** The entry is still there, unchanged but for its position in vRandom. */
  ghost predicate Kept(a: Infos, b: Infos, y: int)
    requires y in a
  {
    y in b && b[y] == a[y].(randomPos := b[y].randomPos)
  }

  lemma ReleasedElsewhere(infos: Infos, id: int, infos': Infos)
    requires SameButRandom(Released(infos, id), infos')
    ensures forall y :: y in infos && y != id ==> Kept(infos, infos', y)
    ensures infos'.Keys <= infos.Keys
  {
  }

  lemma DeletedKept(infos: Infos, id: int, infos': Infos)
    requires SameButRandom(infos - {id}, infos')
    ensures forall y :: y in infos && y != id ==> Kept(infos, infos', y)
    ensures id !in infos' && infos'.Keys <= infos.Keys
  {
  }

  lemma SameButRandomRefl(infos: Infos)
    ensures SameButRandom(infos, infos) && forall y :: y in infos ==> Kept(infos, infos, y)
  {
  }

  /** A snapshot of the whole state. */
  datatype State = State(
    h: Hashes,
    key: nat,
    infos: Infos,
    addrs: map<NetAddr, int>,
    random: seq<int>,
    vvNew: Table,
    vvTried: Table,
    count: int,
    nNew: int,
    nTried: int)
  {
    function ServiceOf(id: int): Service
      requires id in infos
    {
      infos[id].address.service
    }

    function TriedSlotOf(id: int): Slot
      requires id in infos
    {
      h.TriedSlot(key, ServiceOf(id))
    }
  }

  /** The conditions that do not mention vRandom or the counters. */
  ghost predicate TablesOk(s: State, floating: set<int>) {
    && s.count >= 0
    && AddrOk(s.infos, s.addrs)
    && NewOk(s.h, s.key, s.infos, s.vvNew)
    && RefOk(s.h, s.key, s.infos, s.vvNew)
    && TriedOk(s.h, s.key, s.infos, s.vvTried)
    && EntriesOk(s.infos, floating, s.count)
  }

  ghost predicate CountsOk(s: State, floating: set<int>, extra: int) {
    s.nTried == |TriedIds(s.infos)| && s.nNew == |NewIds(s.infos) - floating| + extra
  }

  /** Consistent, except that the floating entries are in no table and `extra` of them are counted in nNew. */
  ghost predicate StateOk(s: State, floating: set<int>, extra: int) {
    TablesOk(s, floating) && RandomOk(s.infos, s.random) && CountsOk(s, floating, extra)
  }

  // ---- one index at a time ----

  lemma NowhereIfNoBuckets(h: Hashes, key: nat, infos: Infos, t: Table, id: int)
    requires NewOk(h, key, infos, t) && id in infos && id != -1
    requires Buckets(h, key, infos[id].address.service, t, id) == {}
    ensures forall p :: p in t ==> t[p] != id
  {
    forall p | p in t
      ensures t[p] != id
    {
      assert p.bucket !in Buckets(h, key, infos[id].address.service, t, id);
      assert p == Slot(p.bucket, p.pos);
    }
  }

  /** What emptying one new slot does to the buckets of every entry. */
  lemma BucketsAfterWrite(h: Hashes, key: nat, infos: Infos, t: Table, p: Slot, y: int)
    requires Full(t, NEW_BUCKETS) && p in t && 0 <= y && y in infos
    requires t[p] == y ==> p.pos == h.NewPos(key, infos[y].address.service, p.bucket)
    ensures Full(t[p := -1], NEW_BUCKETS)
    ensures Buckets(h, key, infos[y].address.service, t[p := -1], y)
         == Buckets(h, key, infos[y].address.service, t, y) - (if t[p] == y then {p.bucket} else {})
    ensures t[p] == y ==> p.bucket in Buckets(h, key, infos[y].address.service, t, y)
  {
    if t[p] == y {
      assert p == Slot(p.bucket, h.NewPos(key, infos[y].address.service, p.bucket));
    }
  }

  lemma ReleaseRef(h: Hashes, key: nat, infos: Infos, t: Table, p: Slot)
    requires NewOk(h, key, infos, t) && RefOk(h, key, infos, t) && p in t && t[p] != -1
    requires forall id :: id in infos ==> 0 <= id
    ensures var x := t[p];
      && x in infos && infos[x].refCount > 0 && Full(t[p := -1], NEW_BUCKETS)
      && NewOk(h, key, infos[x := infos[x].(refCount := infos[x].refCount - 1)], t[p := -1])
      && RefOk(h, key, infos[x := infos[x].(refCount := infos[x].refCount - 1)], t[p := -1])
  {
    var x := t[p];
    var infos' := infos[x := infos[x].(refCount := infos[x].refCount - 1)];
    BucketsAfterWrite(h, key, infos, t, p, x);
    forall y | y in infos' && !infos'[y].inTried
      ensures infos'[y].refCount == |Buckets(h, key, infos'[y].address.service, t[p := -1], y)|
    {
      BucketsAfterWrite(h, key, infos, t, p, y);
    }
  }

  lemma FillRef(h: Hashes, key: nat, infos: Infos, t: Table, p: Slot, x: int)
    requires NewOk(h, key, infos, t) && RefOk(h, key, infos, t) && p in t && t[p] == -1
    requires forall id :: id in infos ==> 0 <= id
    requires x in infos && !infos[x].inTried && p.pos == h.NewPos(key, infos[x].address.service, p.bucket)
    ensures NewOk(h, key, infos[x := infos[x].(refCount := infos[x].refCount + 1)], t[p := x])
    ensures RefOk(h, key, infos[x := infos[x].(refCount := infos[x].refCount + 1)], t[p := x])
  {
    var t' := t[p := x];
    var infos' := infos[x := infos[x].(refCount := infos[x].refCount + 1)];
    assert Full(t', NEW_BUCKETS) && t'[p := -1] == t;
    forall y | y in infos' && !infos'[y].inTried
      ensures infos'[y].refCount == |Buckets(h, key, infos'[y].address.service, t', y)|
    {
      BucketsAfterWrite(h, key, infos, t', p, y);
    }
  }

  lemma AddrTouched(infos: Infos, addrs: map<NetAddr, int>, x: int, info: Info)
    requires AddrOk(infos, addrs) && x in infos && info.Net() == infos[x].Net()
    ensures AddrOk(infos[x := info], addrs)
  {
  }

  lemma TriedTouched(h: Hashes, key: nat, infos: Infos, t: Table, x: int, info: Info)
    requires TriedOk(h, key, infos, t) && x in infos
    requires info.address.service == infos[x].address.service && info.inTried == infos[x].inTried
    ensures TriedOk(h, key, infos[x := info], t)
    ensures TriedIds(infos[x := info]) == TriedIds(infos) && NewIds(infos[x := info]) == NewIds(infos)
  {
    assert forall id :: id in TriedIds(infos[x := info]) <==> id in TriedIds(infos);
    assert forall id :: id in NewIds(infos[x := info]) <==> id in NewIds(infos);
  }

  lemma NewTouched(h: Hashes, key: nat, infos: Infos, t: Table, x: int, info: Info)
    requires NewOk(h, key, infos, t) && RefOk(h, key, infos, t) && x in infos
    requires info.address.service == infos[x].address.service && info.inTried == infos[x].inTried
    requires info.refCount == infos[x].refCount
    ensures NewOk(h, key, infos[x := info], t) && RefOk(h, key, infos[x := info], t)
  {
  }

  lemma EntriesSet(infos: Infos, floating: set<int>, count: int, x: int, info: Info, floating': set<int>)
    requires EntriesOk(infos, floating, count) && x in infos
    requires floating' - {x} == floating - {x} && EntryOk(info, x in floating')
    ensures EntriesOk(infos[x := info], floating', count)
  {
    forall id | id in infos[x := info]
      ensures EntryOk(infos[x := info][id], id in floating') && 0 <= id < count
    {
      assert id in floating' - {x} <==> id in floating - {x};
    }
    assert floating' <= floating' - {x} + {x};
  }

  lemma CreateAddr(infos: Infos, addrs: map<NetAddr, int>, id: int, info: Info)
    requires AddrOk(infos, addrs) && id !in infos && info.Net() !in addrs
    ensures AddrOk(infos[id := info], addrs[info.Net() := id])
  {
  }

  lemma RandomTouched(infos: Infos, random: seq<int>, x: int, info: Info)
    requires RandomOk(infos, random) && x in infos && info.randomPos == infos[x].randomPos
    ensures RandomOk(infos[x := info], random)
  {
  }

  lemma RandomPushed(infos: Infos, random: seq<int>, id: int, info: Info)
    requires RandomOk(infos, random) && id !in infos && info.randomPos == |random|
    ensures RandomOk(infos[id := info], random + [id])
  {
  }

  lemma RandomPopped(infos: Infos, random: seq<int>, id: int)
    requires RandomOk(infos, random) && |random| > 0 && random[|random| - 1] == id
    ensures RandomOk(infos - {id}, random[..|random| - 1])
  {
  }

  lemma EvictedOk(h: Hashes, key: nat, infos: Infos, vvNew: Table, vvTried: Table, p: Slot)
    requires NewOk(h, key, infos, vvNew) && RefOk(h, key, infos, vvNew) && TriedOk(h, key, infos, vvTried)
    requires p in vvTried && vvTried[p] != -1
    requires forall id :: id in infos ==> 0 <= id && (infos[id].inTried ==> infos[id].refCount == 0)
    ensures var x := vvTried[p];
      && x in infos && infos[x].inTried
      && NewOk(h, key, infos[x := infos[x].(inTried := false)], vvNew)
      && RefOk(h, key, infos[x := infos[x].(inTried := false)], vvNew)
      && TriedOk(h, key, infos[x := infos[x].(inTried := false)], vvTried[p := -1])
  {
    var x := vvTried[p];
    assert Buckets(h, key, infos[x].address.service, vvNew, x) == {};
  }

  lemma EnteredOk(h: Hashes, key: nat, infos: Infos, vvNew: Table, vvTried: Table, x: int)
    requires NewOk(h, key, infos, vvNew) && RefOk(h, key, infos, vvNew) && TriedOk(h, key, infos, vvTried)
    requires x in infos && !infos[x].inTried && infos[x].refCount == 0
    requires forall id :: id in infos ==> 0 <= id
    requires vvTried[h.TriedSlot(key, infos[x].address.service)] == -1
    ensures NewOk(h, key, infos[x := infos[x].(inTried := true)], vvNew)
    ensures RefOk(h, key, infos[x := infos[x].(inTried := true)], vvNew)
    ensures TriedOk(h, key, infos[x := infos[x].(inTried := true)],
                    vvTried[h.TriedSlot(key, infos[x].address.service) := x])
  {
    NowhereIfNoBuckets(h, key, infos, vvNew, x);
    var p := h.TriedSlot(key, infos[x].address.service);
    assert p in vvTried && Full(vvTried[p := x], TRIED_BUCKETS);
  }

  lemma EntryFacts(infos: Infos, floating: set<int>, count: int)
    requires EntriesOk(infos, floating, count)
    ensures forall id :: id in infos ==> 0 <= id < count && EntryOk(infos[id], id in floating)
    ensures floating <= infos.Keys
  {
  }

  // ---- the tables ----

  lemma SameButRandomKeeps(s: State, infos: Infos, floating: set<int>)
    requires TablesOk(s, floating) && SameButRandom(s.infos, infos)
    ensures TablesOk(s.(infos := infos), floating)
    ensures TriedIds(s.infos) == TriedIds(infos) && NewIds(s.infos) == NewIds(infos)
  {
    assert forall id :: id in TriedIds(s.infos) <==> id in TriedIds(infos);
    assert forall id :: id in NewIds(s.infos) <==> id in NewIds(infos);
  }

  /** Emptying a new slot takes one reference away; the last one leaves the entry floating. */
  lemma ReleaseSlot(s: State, floating: set<int>, p: Slot)
    requires TablesOk(s, floating) && p in s.vvNew && s.vvNew[p] != -1
    ensures var x := s.vvNew[p];
      && x in s.infos && s.infos[x].refCount > 0 && x !in floating && !s.infos[x].inTried
      && var left := s.infos[x].refCount - 1;
         TablesOk(s.(infos := s.infos[x := s.infos[x].(refCount := left)], vvNew := s.vvNew[p := -1]),
                  if left == 0 then floating + {x} else floating)
  {
    hide AddrOk, NewOk, RefOk, TriedOk, EntriesOk, RandomOk;
    EntryFacts(s.infos, floating, s.count);
    ReleaseRef(s.h, s.key, s.infos, s.vvNew, p);
    var x := s.vvNew[p];
    var info := s.infos[x].(refCount := s.infos[x].refCount - 1);
    AddrTouched(s.infos, s.addrs, x, info);
    TriedTouched(s.h, s.key, s.infos, s.vvTried, x, info);
    EntriesSet(s.infos, floating, s.count, x, info, if info.refCount == 0 then floating + {x} else floating);
  }

  /** Filling an empty new slot with an entry that hashes there gives it one reference more. */
  lemma FillSlot(s: State, floating: set<int>, p: Slot, x: int)
    requires TablesOk(s, floating) && p in s.vvNew && s.vvNew[p] == -1
    requires x in s.infos && !s.infos[x].inTried && s.infos[x].refCount < MAX_REFS
    requires p.pos == s.h.NewPos(s.key, s.ServiceOf(x), p.bucket)
    ensures TablesOk(s.(infos := s.infos[x := s.infos[x].(refCount := s.infos[x].refCount + 1)],
                        vvNew := s.vvNew[p := x]),
                     floating - {x})
  {
    hide AddrOk, NewOk, RefOk, TriedOk, EntriesOk, RandomOk;
    EntryFacts(s.infos, floating, s.count);
    FillRef(s.h, s.key, s.infos, s.vvNew, p, x);
    var info := s.infos[x].(refCount := s.infos[x].refCount + 1);
    AddrTouched(s.infos, s.addrs, x, info);
    TriedTouched(s.h, s.key, s.infos, s.vvTried, x, info);
    EntriesSet(s.infos, floating, s.count, x, info, floating - {x});
  }

  /** A floating entry can be forgotten. */
  lemma ForgetEntry(s: State, floating: set<int>, x: int)
    requires TablesOk(s, floating) && x in floating
    ensures TablesOk(s.(infos := s.infos - {x}, addrs := s.addrs - {s.infos[x].Net()}), floating - {x})
  {
    NowhereIfNoBuckets(s.h, s.key, s.infos, s.vvNew, x);
  }

  /** A new entry starts out floating. */
  lemma CreateEntry(s: State, floating: set<int>, info: Info)
    requires TablesOk(s, floating) && info.Net() !in s.addrs && EntryOk(info, true)
    ensures s.count !in s.infos
    ensures TablesOk(s.(infos := s.infos[s.count := info], addrs := s.addrs[info.Net() := s.count], count := s.count + 1),
                     floating + {s.count})
  {
    hide AddrOk;
    assert s.count !in s.infos;
    CreateAddr(s.infos, s.addrs, s.count, info);
    CreateRef(s.h, s.key, s.infos, s.vvNew, s.count, info);
    hide NewOk, RefOk;
  }

  lemma CreateRef(h: Hashes, key: nat, infos: Infos, t: Table, id: int, info: Info)
    requires NewOk(h, key, infos, t) && RefOk(h, key, infos, t)
    requires id != -1 && id !in infos && !info.inTried && info.refCount == 0
    ensures NewOk(h, key, infos[id := info], t) && RefOk(h, key, infos[id := info], t)
  {
    assert Buckets(h, key, info.address.service, t, id) == {};
  }

  /** Taking an entry out of the tried table leaves it floating. */
  lemma EvictTried(s: State, floating: set<int>, p: Slot)
    requires TablesOk(s, floating) && p in s.vvTried && s.vvTried[p] != -1
    ensures var x := s.vvTried[p];
      && x in s.infos && s.infos[x].inTried && x !in floating
      && TablesOk(s.(infos := s.infos[x := s.infos[x].(inTried := false)], vvTried := s.vvTried[p := -1]),
                  floating + {x})
  {
    hide AddrOk, NewOk, RefOk, TriedOk, EntriesOk, RandomOk;
    EntryFacts(s.infos, floating, s.count);
    EvictedOk(s.h, s.key, s.infos, s.vvNew, s.vvTried, p);
    var x := s.vvTried[p];
    var info := s.infos[x].(inTried := false);
    AddrTouched(s.infos, s.addrs, x, info);
    EntriesSet(s.infos, floating, s.count, x, info, floating + {x});
  }

  /** A floating entry that has succeeded may enter its tried slot when that is empty. */
  lemma EnterTried(s: State, floating: set<int>, x: int)
    requires TablesOk(s, floating) && x in floating && s.infos[x].lastSuccess > 0
    requires s.vvTried[s.TriedSlotOf(x)] == -1
    ensures TablesOk(s.(infos := s.infos[x := s.infos[x].(inTried := true)], vvTried := s.vvTried[s.TriedSlotOf(x) := x]),
                     floating - {x})
  {
    hide AddrOk, NewOk, RefOk, TriedOk, EntriesOk, RandomOk;
    EntryFacts(s.infos, floating, s.count);
    EnteredOk(s.h, s.key, s.infos, s.vvNew, s.vvTried, x);
    var info := s.infos[x].(inTried := true);
    AddrTouched(s.infos, s.addrs, x, info);
    EntriesSet(s.infos, floating, s.count, x, info, floating - {x});
  }

  lemma TablesSame(s: State, t: State, floating: set<int>)
    requires TablesOk(s, floating)
    requires t == s.(random := t.random, nNew := t.nNew, nTried := t.nTried)
    ensures TablesOk(t, floating)
  {
  }

  // ---- the whole state ----

  lemma FloatingState(s: State, floating: set<int>, extra: int, id: int)
    requires StateOk(s, floating, extra) && id in floating
    ensures id in s.infos && !s.infos[id].inTried && s.infos[id].refCount == 0
    ensures RandomOk(s.infos, s.random)
    ensures 0 <= s.infos[id].randomPos < |s.random| && s.random[s.infos[id].randomPos] == id
  {
  }

  lemma NoEntryMinusOne(s: State, floating: set<int>, extra: int)
    requires StateOk(s, floating, extra)
    ensures -1 !in s.infos
  {
  }

  lemma EmptySlotNotFloating(s: State, floating: set<int>, extra: int)
    requires StateOk(s, floating, extra)
    ensures -1 !in floating && forall p :: p in s.vvNew ==> s.vvNew[p] !in floating
  {
    forall p | p in s.vvNew
      ensures s.vvNew[p] !in floating
    {
      if s.vvNew[p] in floating {
        FloatingNowhere(s, floating, extra, s.vvNew[p]);
      }
    }
  }

  lemma AbsentAddress(s: State, net: NetAddr)
    requires StateOk(s, {}, 0) && (net in s.addrs ==> s.addrs[net] !in s.infos || s.addrs[net] == -1)
    ensures net !in s.addrs
  {
  }

  lemma FullTables(s: State, floating: set<int>, extra: int)
    requires StateOk(s, floating, extra)
    ensures Full(s.vvNew, NEW_BUCKETS) && Full(s.vvTried, TRIED_BUCKETS)
  {
  }

  lemma EntryState(s: State, floating: set<int>, extra: int, id: int)
    requires StateOk(s, floating, extra) && id in s.infos
    ensures EntryOk(s.infos[id], id in floating) && 0 <= id
    ensures s.infos[id].Net() in s.addrs && s.addrs[s.infos[id].Net()] == id
  {
  }

  /** A floating entry is in no new slot, and every other new entry is in some bucket. */
  lemma FloatingNowhere(s: State, floating: set<int>, extra: int, id: int)
    requires StateOk(s, floating, extra) && id in s.infos && !s.infos[id].inTried
    ensures id in floating ==> forall p :: p in s.vvNew ==> s.vvNew[p] != id
    ensures id !in floating ==> exists b :: 0 <= b < NEW_BUCKETS && InBucket(s.h, s.key, s.ServiceOf(id), s.vvNew, id, b)
  {
    var buckets := Buckets(s.h, s.key, s.ServiceOf(id), s.vvNew, id);
    if id in floating {
      NowhereIfNoBuckets(s.h, s.key, s.infos, s.vvNew, id);
    } else {
      var b :| b in buckets;
      assert InBucket(s.h, s.key, s.ServiceOf(id), s.vvNew, id, b);
    }
  }

  /** The new bucket `b` holds the entry. */
  predicate InBucket(h: Hashes, key: nat, service: Service, t: Table, id: int, b: int) {
    var p := Slot(b, h.NewPos(key, service, b));
    p in t && t[p] == id
  }

  lemma RecountState(s: State, floating: set<int>, extra: int, d: int)
    requires StateOk(s, floating, extra)
    ensures StateOk(s.(nNew := s.nNew + d), floating, extra + d)
  {
    hide TablesOk;
    TablesSame(s, s.(nNew := s.nNew + d), floating);
  }

  lemma SlotEntry(s: State, floating: set<int>, extra: int, p: Slot)
    requires StateOk(s, floating, extra) && p in s.vvNew && s.vvNew[p] != -1
    ensures s.vvNew[p] in s.infos
  {
  }

  lemma TriedSlotEntry(s: State, floating: set<int>, extra: int, id: int)
    requires StateOk(s, floating, extra) && id in s.infos
    ensures s.TriedSlotOf(id) in s.vvTried
    ensures s.infos[id].inTried <==> s.vvTried[s.TriedSlotOf(id)] == id
  {
  }

  /** Statistics may change freely as long as no index depends on them. */
  lemma TouchKeeps(s: State, floating: set<int>, extra: int, x: int, info: Info)
    requires StateOk(s, floating, extra) && x in s.infos
    requires info.address.service == s.ServiceOf(x) && info.randomPos == s.infos[x].randomPos
    requires info.refCount == s.infos[x].refCount && info.inTried == s.infos[x].inTried
    requires EntryOk(info, x in floating)
    ensures StateOk(s.(infos := s.infos[x := info]), floating, extra)
  {
    hide TablesOk, RandomOk;
    RandomTouched(s.infos, s.random, x, info);
    TouchEntry(s, floating, x, info);
  }

  lemma TouchEntry(s: State, floating: set<int>, x: int, info: Info)
    requires TablesOk(s, floating) && x in s.infos
    requires info.address.service == s.ServiceOf(x)
    requires info.refCount == s.infos[x].refCount && info.inTried == s.infos[x].inTried
    requires EntryOk(info, x in floating)
    ensures TablesOk(s.(infos := s.infos[x := info]), floating)
    ensures TriedIds(s.infos[x := info]) == TriedIds(s.infos) && NewIds(s.infos[x := info]) == NewIds(s.infos)
  {
    hide AddrOk, NewOk, RefOk, TriedOk, EntriesOk, TriedIds, NewIds;
    AddrTouched(s.infos, s.addrs, x, info);
    TriedTouched(s.h, s.key, s.infos, s.vvTried, x, info);
    NewTouched(s.h, s.key, s.infos, s.vvNew, x, info);
    EntriesSet(s.infos, floating, s.count, x, info, floating);
  }

  lemma CreatedIds(infos: Infos, id: int, info: Info, floating: set<int>)
    requires id !in infos && !info.inTried
    ensures TriedIds(infos[id := info]) == TriedIds(infos)
    ensures NewIds(infos[id := info]) - (floating + {id}) == NewIds(infos) - floating
  {
  }

  lemma CreateKeeps(s: State, floating: set<int>, extra: int, info: Info)
    requires StateOk(s, floating, extra) && info.Net() !in s.addrs && EntryOk(info, true)
    requires info.randomPos == |s.random|
    ensures s.count !in s.infos
    ensures StateOk(s.(infos := s.infos[s.count := info], addrs := s.addrs[info.Net() := s.count],
                       random := s.random + [s.count], count := s.count + 1),
                    floating + {s.count}, extra)
  {
    hide TablesOk, RandomOk, TriedIds, NewIds;
    CreateEntry(s, floating, info);
    RandomPushed(s.infos, s.random, s.count, info);
    CreatedIds(s.infos, s.count, info, floating);
    var infos' := s.infos[s.count := info];
    var s1 := s.(infos := infos', addrs := s.addrs[info.Net() := s.count], count := s.count + 1);
    TablesSame(s1, s1.(random := s.random + [s.count]), floating + {s.count});
  }

  /** Deleting a floating entry, after it was swapped to the end of vRandom. */
  lemma DeleteKeeps(s: State, floating: set<int>, extra: int, id: int, infos: Infos, random: seq<int>)
    requires StateOk(s, floating, extra) && id in floating
    requires SameButRandom(s.infos, infos) && RandomOk(infos, random)
    requires |random| > 0 && random[|random| - 1] == id
    ensures id in s.infos && SameButRandom(s.infos - {id}, infos - {id})
    ensures StateOk(s.(infos := infos - {id}, addrs := s.addrs - {s.infos[id].Net()},
                       random := random[..|random| - 1], nNew := s.nNew - 1),
                    floating - {id}, extra - 1)
  {
    hide TablesOk, RandomOk;
    FloatingState(s, floating, extra, id);
    assert id in infos && !infos[id].inTried && infos[id].Net() == s.infos[id].Net();
    SameButRandomKeeps(s, infos, floating);
    ForgetEntry(s.(infos := infos), floating, id);
    RandomPopped(infos, random, id);
    assert TriedIds(infos - {id}) == TriedIds(infos);
    assert NewIds(infos - {id}) - (floating - {id}) == NewIds(infos) - floating;
    var s1 := s.(infos := infos - {id}, addrs := s.addrs - {s.infos[id].Net()});
    TablesSame(s1, s1.(random := random[..|random| - 1], nNew := s.nNew - 1), floating - {id});
  }

  /** Emptying a new slot. */
  lemma ReleaseKeeps(s: State, floating: set<int>, extra: int, p: Slot)
    requires StateOk(s, floating, extra) && p in s.vvNew && s.vvNew[p] != -1
    ensures var x := s.vvNew[p];
      && x in s.infos && s.infos[x].refCount > 0 && !s.infos[x].inTried && x !in floating
      && var left := s.infos[x].refCount - 1;
         var s' := s.(infos := s.infos[x := s.infos[x].(refCount := left)], vvNew := s.vvNew[p := -1]);
         if left == 0 then StateOk(s', floating + {x}, extra + 1) else StateOk(s', floating, extra)
  {
    hide TablesOk, RandomOk;
    ReleaseSlot(s, floating, p);
    var x := s.vvNew[p];
    var info := s.infos[x].(refCount := s.infos[x].refCount - 1);
    RandomTouched(s.infos, s.random, x, info);
    assert TriedIds(s.infos[x := info]) == TriedIds(s.infos);
    assert NewIds(s.infos[x := info]) == NewIds(s.infos);
    assert x in NewIds(s.infos) - floating;
    assert NewIds(s.infos) - (floating + {x}) == NewIds(s.infos) - floating - {x};
  }

  /** Filling an empty new slot; a floating entry is counted from now on. */
  lemma FillKeeps(s: State, floating: set<int>, extra: int, p: Slot, x: int)
    requires StateOk(s, floating, extra) && p in s.vvNew && s.vvNew[p] == -1
    requires x in s.infos && !s.infos[x].inTried && s.infos[x].refCount < MAX_REFS
    requires p.pos == s.h.NewPos(s.key, s.ServiceOf(x), p.bucket)
    ensures StateOk(s.(infos := s.infos[x := s.infos[x].(refCount := s.infos[x].refCount + 1)],
                       vvNew := s.vvNew[p := x]),
                    floating - {x}, if x in floating then extra - 1 else extra)
  {
    hide TablesOk, RandomOk;
    FillSlot(s, floating, p, x);
    var info := s.infos[x].(refCount := s.infos[x].refCount + 1);
    RandomTouched(s.infos, s.random, x, info);
    assert TriedIds(s.infos[x := info]) == TriedIds(s.infos);
    assert NewIds(s.infos[x := info]) == NewIds(s.infos);
    if x in floating {
      assert NewIds(s.infos) - (floating - {x}) == (NewIds(s.infos) - floating) + {x};
    } else {
      assert floating - {x} == floating;
    }
  }

  lemma EvictKeeps(s: State, floating: set<int>, extra: int, p: Slot)
    requires StateOk(s, floating, extra) && p in s.vvTried && s.vvTried[p] != -1
    ensures var x := s.vvTried[p];
      && x in s.infos && s.infos[x].inTried && x !in floating
      && StateOk(s.(infos := s.infos[x := s.infos[x].(inTried := false)], vvTried := s.vvTried[p := -1],
                    nTried := s.nTried - 1),
                 floating + {x}, extra)
  {
    hide TablesOk, RandomOk;
    EvictTried(s, floating, p);
    var x := s.vvTried[p];
    var info := s.infos[x].(inTried := false);
    RandomTouched(s.infos, s.random, x, info);
    assert TriedIds(s.infos[x := info]) == TriedIds(s.infos) - {x};
    assert NewIds(s.infos[x := info]) - (floating + {x}) == NewIds(s.infos) - floating;
    var s1 := s.(infos := s.infos[x := info], vvTried := s.vvTried[p := -1]);
    TablesSame(s1, s1.(nTried := s.nTried - 1), floating + {x});
  }

  lemma EnterKeeps(s: State, floating: set<int>, extra: int, x: int)
    requires StateOk(s, floating, extra) && x in floating && s.infos[x].lastSuccess > 0
    requires s.vvTried[s.TriedSlotOf(x)] == -1
    ensures StateOk(s.(infos := s.infos[x := s.infos[x].(inTried := true)], vvTried := s.vvTried[s.TriedSlotOf(x) := x],
                       nTried := s.nTried + 1),
                    floating - {x}, extra)
  {
    hide TablesOk, RandomOk;
    EnterTried(s, floating, x);
    FloatingState(s, floating, extra, x);
    var info := s.infos[x].(inTried := true);
    RandomTouched(s.infos, s.random, x, info);
    assert TriedIds(s.infos[x := info]) == TriedIds(s.infos) + {x};
    assert NewIds(s.infos[x := info]) - (floating - {x}) == NewIds(s.infos) - floating;
    var s1 := s.(infos := s.infos[x := info], vvTried := s.vvTried[s.TriedSlotOf(x) := x]);
    TablesSame(s1, s1.(nTried := s.nTried + 1), floating - {x});
  }

  lemma SwapKeeps(s: State, infos: Infos, random: seq<int>)
    requires StateOk(s, {}, 0) && SameButRandom(s.infos, infos) && RandomOk(infos, random)
    ensures StateOk(s.(infos := infos, random := random), {}, 0)
  {
    hide TablesOk, RandomOk;
    SameButRandomKeeps(s, infos, {});
    TablesSame(s.(infos := infos), s.(infos := infos, random := random), {});
  }

  lemma RandomState(s: State, floating: set<int>, extra: int)
    requires StateOk(s, floating, extra)
    ensures RandomOk(s.infos, s.random)
  {
  }

  lemma SameButRandomTrans(a: Infos, b: Infos, c: Infos)
    requires SameButRandom(a, b) && SameButRandom(b, c)
    ensures SameButRandom(a, c)
  {
  }
}
