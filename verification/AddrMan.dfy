/**
 The address manager of src/addrman.cpp. Every operation keeps all consistency conditions
 of AddrManState, whatever the hashes, the clock and the random choices are.
 */
module AddrMan {
  import opened AddrManState
  import AddrManCheck
  import opened Powers
  import Sets

  /** The n-th bucket looked at, starting from a random one. */
  function Probe(start: int, n: int): int {
    (n + start) % NEW_BUCKETS
  }

  /** The time an entry is left with when its address is announced again. */
  function RefreshedTime(known: int, announced: int, penalty: int, now: int): int {
    var interval := if now - announced < 24 * 60 * 60 then 60 * 60 else 24 * 60 * 60;
    if announced != 0 && (known == 0 || known < announced - interval - penalty)
    then (if announced > penalty then announced - penalty else 0)
    else known
  }

  /** A known time never goes back, and it moves by more than the interval or not at all. */
  lemma TimeAdvances(known: int, announced: int, penalty: int, now: int)
    requires known > 0
    ensures var time := RefreshedTime(known, announced, penalty, now);
      && known <= time
      && (time != known ==> time == announced - penalty && time > known + 60 * 60)
      && (time != known && now - announced >= 24 * 60 * 60 ==> time > known + 24 * 60 * 60)
      && (announced == 0 ==> time == known)
  {
  }

  /** An entry enters its slot if it is there already, if the slot is free, or if the occupant is
      terrible, or is listed elsewhere while the entry is not. */
  ghost predicate EntersSlot(infos: Infos, t: Table, p: Slot, id: int, now: int)
    requires id in infos && p in t
  {
    || t[p] == id || t[p] == -1
    || (t[p] in infos && (infos[t[p]].IsTerrible(now) || (infos[t[p]].refCount > 1 && infos[id].refCount == 0)))
  }

  /** The entries, up to their places in vRandom, once an entry was offered its slot: it takes the
      slot and the occupant loses a reference, or it goes if it has no other place. */
  ghost function Placed(infos: Infos, t: Table, p: Slot, id: int, now: int): Infos
    requires id in infos && p in t
  {
    if t[p] == id then infos
    else if EntersSlot(infos, t, p, id, now) then
      Taken(infos, t[p], id)
    else if infos[id].refCount == 0 then infos - {id}
    else infos
  }

  /** The slot takes an entry that is listed nowhere: it is free, or its occupant may go. */
  ghost predicate Open(infos: Infos, t: Table, p: Slot, now: int)
    requires p in t
  {
    t[p] == -1 || (t[p] in infos && (infos[t[p]].IsTerrible(now) || infos[t[p]].refCount > 1))
  }

  /** The entry made for an address that was not known, once it has one place. */
  function FreshInfo(address: Address, source: NetAddr, penalty: int): Info {
    NewInfo(address.(time := if address.time > penalty then address.time - penalty else 0), source)
  }

  /** The service flags of either. */
  function BothServices(a: bv64, b: bv64): bv64 {
    a | b
  }

  lemma EitherService(a: bv64, b: bv64, flag: bv64)
    ensures BothServices(a, b) & flag == (a & flag) | (b & flag)
  {
  }

  /** A known entry after its address is announced again. */
  function RefreshedInfo(info: Info, address: Address, penalty: int, now: int): Info {
    info.(address := Address(info.address.service, BothServices(info.address.services, address.services),
                             RefreshedTime(info.address.time, address.time, penalty, now)))
  }

  /** A refreshed entry is offered one more place: the announcement is news, it has places left, and
      the draw succeeds, twice as rarely for every place it has. */
  predicate OneMorePlace(info: Info, announced: int, draw: nat) {
    && announced != 0 && (info.address.time == 0 || announced > info.address.time)
    && !info.inTried && 0 <= info.refCount < MAX_REFS
    && draw % Pow2(info.refCount) == 0
  }

  /** The entries, up to their places in vRandom, once an entry took a slot from its occupant. */
  ghost function Taken(infos: Infos, occupant: int, id: int): Infos
    requires id in infos
  {
    Released(infos, occupant)[id := infos[id].(refCount := infos[id].refCount + 1)]
  }

  lemma TakenNow(infos: Infos, occupant: int, id: int, cleared: Infos)
    requires id in infos && id in cleared && occupant != id && SameButRandom(Released(infos, occupant), cleared)
    ensures SameButRandom(Taken(infos, occupant, id), cleared[id := cleared[id].(refCount := cleared[id].refCount + 1)])
  {
  }

  /** From the first entries, new table and address map to the second: what offering an entry its
      slot does. All entries but this one and the victim keep what they had. */
  ghost predicate Offered(infos: Infos, t: Table, addrs: map<NetAddr, int>, p: Slot, id: int, now: int,
          infos': Infos, t': Table, addrs': map<NetAddr, int>, victim: int)
    requires id in infos && p in t
  {
    && infos'.Keys <= infos.Keys && (victim == -1 || victim == t[p])
    && t' == (if EntersSlot(infos, t, p, id, now) then t[p := id] else t)
    && (forall y :: y in infos && y != id && y != victim ==> Kept(infos, infos', y))
    && SameButRandom(Placed(infos, t, p, id, now), infos')
    && (id !in infos' ==> addrs' == addrs - {infos[id].Net()})
    && (id in infos' <==> infos[id].refCount > 0 || t'[p] == id)
    && (id in infos' ==> infos'[id] == infos[id].(
          refCount := infos[id].refCount + (if t'[p] == id && t[p] != id then 1 else 0),
          randomPos := infos'[id].randomPos))
  }

  lemma OfferedStays(infos: Infos, t: Table, addrs: map<NetAddr, int>, p: Slot, id: int, now: int)
    requires id in infos && p in t && 0 <= infos[id].refCount
    requires t[p] == id || (!EntersSlot(infos, t, p, id, now) && infos[id].refCount > 0)
    ensures Offered(infos, t, addrs, p, id, now, infos, t, addrs, -1)
  {
    SameButRandomRefl(infos);
    hide SameButRandom, Kept;
    if t[p] == id {
      assert t[p := id] == t;
    }
  }

  lemma OfferedTaken(infos: Infos, t: Table, addrs: map<NetAddr, int>, p: Slot, id: int, now: int, infos': Infos,
          addrs': map<NetAddr, int>)
    requires id in infos && p in t && t[p] != id && EntersSlot(infos, t, p, id, now)
    requires id in infos' && infos'.Keys <= infos.Keys && SameButRandom(Taken(infos, t[p], id), infos')
    requires infos'[id] == infos[id].(refCount := infos[id].refCount + 1, randomPos := infos'[id].randomPos)
    requires forall y :: y in infos && y != id && y != t[p] ==> Kept(infos, infos', y)
    ensures Offered(infos, t, addrs, p, id, now, infos', t[p := id], addrs', t[p])
  {
    hide SameButRandom, Kept, Taken;
    assert Placed(infos, t, p, id, now) == Taken(infos, t[p], id);
  }

  lemma OfferedGone(infos: Infos, t: Table, addrs: map<NetAddr, int>, p: Slot, id: int, now: int, infos': Infos)
    requires id in infos && p in t && t[p] != id && !EntersSlot(infos, t, p, id, now) && infos[id].refCount == 0
    requires SameButRandom(infos - {id}, infos')
    ensures Offered(infos, t, addrs, p, id, now, infos', t, addrs - {infos[id].Net()}, -1)
  {
    DeletedKept(infos, id, infos');
    hide SameButRandom, Kept;
  }

  /** What the offer of its slot makes of an entry that was just created. */
  lemma NewcomerOffered(was: Infos, t: Table, p: Slot, id: int, made: Info, now: int, after: Infos)
    requires p in t && t[p] != id && id !in was && -1 !in was && (t[p] == -1 || t[p] in was)
    requires made.refCount == 0 && SameButRandom(Placed(was[id := made], t, p, id, now), after)
    ensures EntersSlot(was[id := made], t, p, id, now) <==> Open(was, t, p, now)
    ensures if Open(was, t, p, now) then
              && id in after && after[id] == made.(refCount := 1, randomPos := after[id].randomPos)
              && SameButRandom(Released(was, t[p])[id := after[id]], after)
            else SameButRandom(was, after) && id !in after
  {
    var infos := was[id := made];
    assert infos - {id} == was;
    assert EntersSlot(infos, t, p, id, now) <==> Open(was, t, p, now);
    var placed := made.(refCount := 1);
    assert Released(infos, t[p])[id := placed] == Released(was, t[p])[id := placed];
  }

  class AddrMan {
    const h: Hashes
    /** Whether an address can be routed to. */
    const routable: NetAddr -> bool
    var nIdCount: int
    var mapInfo: Infos
    var mapAddr: map<NetAddr, int>
    var vRandom: seq<int>
    var nTried: int
    var vvTried: Table
    var nNew: int
    var vvNew: Table
    var nLastGood: int
    var nKey: nat

    ghost function Snap(): State
      reads this
    {
      State(h, nKey, mapInfo, mapAddr, vRandom, vvNew, vvTried, nIdCount, nNew, nTried)
    }

    /**
     Consistent, except that the entries in `floating` are in no table and that `extra`
     of them are already counted in nNew.
     */
    ghost predicate Inv(floating: set<int>, extra: int)
      reads this
    {
      StateOk(Snap(), floating, extra)
    }

    ghost predicate Valid()
      reads this
    {
      Inv({}, 0)
    }

    constructor (h: Hashes, routable: NetAddr -> bool, key: nat)
      ensures Valid() && mapInfo == map[] && nKey == key && this.h == h && this.routable == routable
      ensures nIdCount == 0 && nLastGood == 1
    {
      this.h := h;
      this.routable := routable;
      nKey := key;
      vRandom := [];
      vvNew := EmptyTable(NEW_BUCKETS);
      vvTried := EmptyTable(TRIED_BUCKETS);
      nIdCount, nTried, nNew, nLastGood := 0, 0, 0, 1;
      mapInfo, mapAddr := map[], map[];
    }

    function Find(net: NetAddr): (id: int)
      reads this
      ensures id != -1 ==> id in mapInfo && net in mapAddr && mapAddr[net] == id
    {
      if net in mapAddr && mapAddr[net] in mapInfo then mapAddr[net] else -1
    }

    /** Change only what no index depends on. */
    method Touch(id: int, info: Info, ghost floating: set<int>, ghost extra: int)
      requires Inv(floating, extra) && id in mapInfo
      requires info.address.service == mapInfo[id].address.service && info.randomPos == mapInfo[id].randomPos
      requires info.refCount == mapInfo[id].refCount && info.inTried == mapInfo[id].inTried
      requires EntryOk(info, id in floating)
      modifies this`mapInfo
      ensures Inv(floating, extra) && mapInfo == old(mapInfo)[id := info]
    {
      hide StateOk;
      TouchKeeps(Snap(), floating, extra, id, info);
      mapInfo := mapInfo[id := info];
    }

    method Create(address: Address, source: NetAddr, ghost floating: set<int>, ghost extra: int) returns (id: int)
      requires Inv(floating, extra) && address.service.net !in mapAddr
      modifies this`nIdCount, this`mapInfo, this`mapAddr, this`vRandom
      ensures Inv(floating + {id}, extra)
      ensures id == old(nIdCount) && id !in old(mapInfo)
      ensures mapInfo == old(mapInfo)[id := NewInfo(address, source).(randomPos := |old(vRandom)|)]
      ensures mapAddr == old(mapAddr)[address.service.net := id]
    {
      hide StateOk;
      id := nIdCount;
      var info := NewInfo(address, source).(randomPos := |vRandom|);
      CreateKeeps(Snap(), floating, extra, info);
      nIdCount := nIdCount + 1;
      mapInfo := mapInfo[id := info];
      mapAddr := mapAddr[address.service.net := id];
      vRandom := vRandom + [id];
    }

    method SwapRandom(pos1: int, pos2: int)
      requires RandomOk(mapInfo, vRandom)
      requires pos1 == pos2 || (0 <= pos1 < |vRandom| && 0 <= pos2 < |vRandom|)
      modifies this`mapInfo, this`vRandom
      ensures RandomOk(mapInfo, vRandom) && SameButRandom(old(mapInfo), mapInfo)
      ensures vRandom == if pos1 == pos2 then old(vRandom)
                         else old(vRandom)[pos1 := old(vRandom)[pos2]][pos2 := old(vRandom)[pos1]]
    {
      if pos1 == pos2 {
        return;
      }
      var id1, id2 := vRandom[pos1], vRandom[pos2];
      assert id1 in mapInfo && id2 in mapInfo && id1 != id2;
      mapInfo := mapInfo[id1 := mapInfo[id1].(randomPos := pos2)];
      mapInfo := mapInfo[id2 := mapInfo[id2].(randomPos := pos1)];
      vRandom := vRandom[pos1 := id2][pos2 := id1];
    }

    /** Remove an entry that is in no table. */
    method Delete(id: int, ghost floating: set<int>, ghost extra: int)
      requires Inv(floating, extra) && id in floating
      modifies this`mapInfo, this`mapAddr, this`vRandom, this`nNew
      ensures Inv(floating - {id}, extra - 1)
      ensures SameButRandom(old(mapInfo) - {id}, mapInfo)
      ensures id in old(mapInfo) && mapAddr == old(mapAddr) - {old(mapInfo)[id].Net()}
    {
      hide StateOk, RandomOk, SameButRandom;
      FloatingState(Snap(), floating, extra, id);
      var info := mapInfo[id];
      assert !info.inTried && info.refCount == 0;
      SwapRandom(info.randomPos, |vRandom| - 1);
      DeleteKeeps(old(Snap()), floating, extra, id, mapInfo, vRandom);
      vRandom := vRandom[..|vRandom| - 1];
      mapAddr := mapAddr - {info.Net()};
      mapInfo := mapInfo - {id};
      nNew := nNew - 1;
    }

    /** Empty a new slot, deleting the entry there when that was its last reference. */
    method ClearNew(p: Slot, ghost floating: set<int>, ghost extra: int)
      requires Inv(floating, extra) && p in vvNew
      modifies this`mapInfo, this`mapAddr, this`vRandom, this`nNew, this`vvNew
      ensures Inv(floating, extra) && vvNew == old(vvNew)[p := -1]
      ensures old(vvNew)[p] != -1 ==> old(vvNew)[p] in old(mapInfo)
      ensures SameButRandom(Released(old(mapInfo), old(vvNew)[p]), mapInfo)
      ensures forall y :: y in old(mapInfo) && y != old(vvNew)[p] ==> Kept(old(mapInfo), mapInfo, y)
      ensures old(vvNew)[p] !in floating && mapInfo.Keys <= old(mapInfo).Keys
    {
      hide StateOk, SameButRandom, Released;
      EmptySlotNotFloating(Snap(), floating, extra);
      NoEntryMinusOne(Snap(), floating, extra);
      var id := vvNew[p];
      if id != -1 {
        ReleaseKeeps(Snap(), floating, extra, p);
        var left := mapInfo[id].refCount - 1;
        mapInfo := mapInfo[id := mapInfo[id].(refCount := left)];
        vvNew := vvNew[p := -1];
        if left == 0 {
          Delete(id, floating + {id}, extra + 1);
          assert floating + {id} - {id} == floating;
        } else {
          SameButRandomRefl(mapInfo);
        }
        ReleasedTwoWays(old(mapInfo), id, mapInfo);
      } else {
        ReleasedNothing(mapInfo);
        assert vvNew == vvNew[p := -1];
      }
      ReleasedElsewhere(old(mapInfo), id, mapInfo);
    }

    /** Take an entry out of one new bucket, if it is there. */
    method LeaveBucket(id: int, bucket: int)
      requires id in mapInfo && !mapInfo[id].inTried && 0 <= bucket < NEW_BUCKETS
      requires if mapInfo[id].refCount == 0 then Inv({id}, 1) else Inv({}, 0)
      modifies this`mapInfo, this`vvNew
      ensures id in mapInfo && mapInfo == old(mapInfo)[id := old(mapInfo)[id].(refCount := mapInfo[id].refCount)]
      ensures if mapInfo[id].refCount == 0 then Inv({id}, 1) else Inv({}, 0)
      ensures !InBucket(h, nKey, mapInfo[id].address.service, vvNew, id, bucket)
      ensures vvNew.Keys == old(vvNew).Keys
      ensures forall p :: p in vvNew ==> vvNew[p] == old(vvNew)[p] || (old(vvNew)[p] == id && vvNew[p] == -1)
    {
      hide StateOk;
      assert mapInfo == mapInfo[id := mapInfo[id].(refCount := mapInfo[id].refCount)];
      var p := Slot(bucket, h.NewPos(nKey, mapInfo[id].address.service, bucket));
      ghost var floating := if mapInfo[id].refCount == 0 then {id} else {};
      ghost var extra := if mapInfo[id].refCount == 0 then 1 else 0;
      FullTables(Snap(), floating, extra);
      if vvNew[p] == id {
        EntryState(Snap(), floating, extra, id);
        ReleaseKeeps(Snap(), floating, extra, p);
        vvNew := vvNew[p := -1];
        mapInfo := mapInfo[id := mapInfo[id].(refCount := mapInfo[id].refCount - 1)];
      }
    }

    /** Take an entry out of every new bucket. */
    method LeaveNewBuckets(id: int)
      requires Inv({}, 0) && id in mapInfo && !mapInfo[id].inTried
      modifies this`mapInfo, this`vvNew
      ensures Inv({id}, 1) && mapInfo == old(mapInfo)[id := old(mapInfo)[id].(refCount := 0)]
      ensures vvNew.Keys == old(vvNew).Keys
      ensures forall p :: p in vvNew ==> vvNew[p] == if old(vvNew)[p] == id then -1 else old(vvNew)[p]
    {
      hide StateOk;
      ghost var info := mapInfo[id];
      var service := mapInfo[id].address.service;
      EntryState(Snap(), {}, 0, id);
      assert mapInfo == mapInfo[id := info.(refCount := info.refCount)];
      for bucket := 0 to NEW_BUCKETS
        invariant id in mapInfo && mapInfo == old(mapInfo)[id := info.(refCount := mapInfo[id].refCount)]
        invariant if mapInfo[id].refCount == 0 then Inv({id}, 1) else Inv({}, 0)
        invariant vvNew.Keys == old(vvNew).Keys
        invariant forall p :: p in vvNew ==> vvNew[p] == old(vvNew)[p] || (old(vvNew)[p] == id && vvNew[p] == -1)
        invariant forall b :: 0 <= b < bucket ==> !InBucket(h, nKey, service, vvNew, id, b)
      {
        ghost var before := vvNew;
        LeaveBucket(id, bucket);
        forall b | 0 <= b < bucket
          ensures !InBucket(h, nKey, service, vvNew, id, b)
        {
          assert !InBucket(h, nKey, service, before, id, b);
        }
      }
      if mapInfo[id].refCount != 0 {
        FloatingNowhere(Snap(), {}, 0, id);
      }
      FloatingNowhere(Snap(), {id}, 1, id);
    }

    /** Move the occupant of a tried slot back to the new table, deleting whatever loses its last place there. */
    method EvictFromTried(p: Slot, ghost floating: set<int>) returns (ghost evicted: int, ghost victim: int)
      requires Inv(floating, 0) && p in vvTried && vvTried[p] != -1
      modifies this`mapInfo, this`mapAddr, this`vRandom, this`nNew, this`nTried, this`vvNew, this`vvTried
      ensures Inv(floating, 0) && vvTried == old(vvTried)[p := -1]
      ensures evicted == old(vvTried)[p] && evicted in old(mapInfo) && evicted in mapInfo && evicted !in floating
      ensures old(mapInfo)[evicted].inTried && victim != evicted && victim !in floating
      ensures var slot := h.NewSlot(nKey, old(mapInfo)[evicted].address.service, old(mapInfo)[evicted].source);
        slot in old(vvNew) && victim == old(vvNew)[slot] && slot in vvNew && vvNew[slot] == evicted
      ensures mapInfo[evicted] == old(mapInfo)[evicted].(inTried := false, refCount := 1, randomPos := mapInfo[evicted].randomPos)
      ensures forall y :: y in old(mapInfo) && y != evicted && y != victim ==> Kept(old(mapInfo), mapInfo, y)
      ensures mapInfo.Keys <= old(mapInfo).Keys
    {
      hide StateOk, SameButRandom, Released;
      var id := vvTried[p];
      evicted := id;
      EvictKeeps(Snap(), floating, 0, p);
      EntryState(Snap(), floating, 0, id);
      var info := mapInfo[id];
      mapInfo := mapInfo[id := info.(inTried := false)];
      vvTried := vvTried[p := -1];
      nTried := nTried - 1;
      var slot := h.NewSlot(nKey, info.address.service, info.source);
      FullTables(Snap(), floating + {id}, 0);
      victim := vvNew[slot];
      ghost var before := mapInfo;
      FloatingNowhere(Snap(), floating + {id}, 0, id);
      TakeSlot(id, slot, floating + {id}, 0);
      assert floating + {id} - {id} == floating;
      RecountState(Snap(), floating, -1, 1);
      nNew := nNew + 1;
      forall y | y in old(mapInfo) && y != evicted && y != victim
        ensures Kept(old(mapInfo), mapInfo, y)
      {
        assert Kept(before, mapInfo, y);
      }
    }

    /** Put a floating entry in its tried slot, which is empty. */
    method EnterTriedSlot(id: int)
      requires Inv({id}, 0) && id in mapInfo && mapInfo[id].lastSuccess > 0
      requires h.TriedSlot(nKey, mapInfo[id].address.service) in vvTried
      requires vvTried[h.TriedSlot(nKey, mapInfo[id].address.service)] == -1
      modifies this`mapInfo, this`nTried, this`vvTried
      ensures Valid() && mapInfo == old(mapInfo)[id := old(mapInfo)[id].(inTried := true)]
    {
      hide StateOk;
      EnterKeeps(Snap(), {id}, 0, id);
      vvTried := vvTried[h.TriedSlot(nKey, mapInfo[id].address.service) := id];
      nTried := nTried + 1;
      mapInfo := mapInfo[id := mapInfo[id].(inTried := true)];
      assert {id} - {id} == {};
    }

    /** Move an entry from the new buckets to its tried slot. */
    method MakeTried(id: int) returns (ghost evicted: int, ghost victim: int)
      requires Valid() && id in mapInfo && !mapInfo[id].inTried && mapInfo[id].lastSuccess > 0
      modifies this`mapInfo, this`mapAddr, this`vRandom, this`nNew, this`nTried, this`vvNew, this`vvTried
      ensures Valid() && id in mapInfo && id != evicted && id != victim
      ensures mapInfo[id] == old(mapInfo)[id].(inTried := true, refCount := 0, randomPos := mapInfo[id].randomPos)
      ensures evicted == old(vvTried)[h.TriedSlot(nKey, old(mapInfo)[id].address.service)]
      ensures evicted != -1 ==> evicted in old(mapInfo) && old(mapInfo)[evicted].inTried && evicted in mapInfo
      ensures evicted != -1 ==> !mapInfo[evicted].inTried
      ensures forall y :: y in old(mapInfo) && y != id && y != evicted && y != victim ==> Kept(old(mapInfo), mapInfo, y)
      ensures mapInfo.Keys <= old(mapInfo).Keys
    {
      hide StateOk;
      LeaveNewBuckets(id);
      RecountState(Snap(), {id}, 1, -1);
      nNew := nNew - 1;
      assert mapInfo[id].refCount == 0;
      ghost var left := mapInfo;
      var p := h.TriedSlot(nKey, mapInfo[id].address.service);
      TriedSlotEntry(Snap(), {id}, 0, id);
      EntryState(Snap(), {id}, 0, id);
      evicted, victim := vvTried[p], -1;
      NoEntryMinusOne(Snap(), {id}, 0);
      if vvTried[p] != -1 {
        evicted, victim := EvictFromTried(p, {id});
        assert Kept(left, mapInfo, id);
      }
      assert vvTried[p] == -1;
      ghost var moved := mapInfo;
      EnterTriedSlot(id);
      forall y | y in old(mapInfo) && y != id && y != evicted && y != victim
        ensures Kept(old(mapInfo), mapInfo, y)
      {
        assert left == moved || Kept(left, moved, y);
      }
    }

    /** Search the new buckets, from a random one on, for one that holds the entry: there always is one. */
    method FindBucket(id: int) returns (bucket: int)
      requires Valid() && id in mapInfo && !mapInfo[id].inTried
      ensures 0 <= bucket < NEW_BUCKETS && InBucket(h, nKey, mapInfo[id].address.service, vvNew, id, bucket)
    {
      hide StateOk, InBucket;
      var service := mapInfo[id].address.service;
      var start: int :| 0 <= start < NEW_BUCKETS;
      FloatingNowhere(Snap(), {}, 0, id);
      ghost var b :| 0 <= b < NEW_BUCKETS && InBucket(h, nKey, service, vvNew, id, b);
      assert Probe(start, (b - start) % NEW_BUCKETS) == b;
      for n := 0 to NEW_BUCKETS
        invariant forall m :: 0 <= m < n ==> !InBucket(h, nKey, service, vvNew, id, Probe(start, m))
      {
        bucket := Probe(start, n);
        if InBucket(h, nKey, service, vvNew, id, bucket) {
          return;
        }
      }
      assert false;
    }

    /** Mark an entry good, moving it to the tried table. */
    method Good(addr: Service, time: int) returns (ghost evicted: int, ghost victim: int)
      requires Valid() && time > 0
      modifies this
      ensures Valid() && nLastGood == time && nKey == old(nKey) && nIdCount == old(nIdCount)
      ensures mapInfo.Keys <= old(mapInfo).Keys
      ensures var id := old(Find(addr.net));
        if id == -1 || old(mapInfo)[id].address.service != addr then mapInfo == old(mapInfo)
        else
          && id in mapInfo && mapInfo[id].inTried && mapInfo[id].address == old(mapInfo)[id].address
          && mapInfo[id].lastSuccess == mapInfo[id].lastTry == time && mapInfo[id].attempts == 0
          && (forall y :: y in old(mapInfo) && y != id && y != evicted && y != victim ==> Kept(old(mapInfo), mapInfo, y))
          && (evicted != -1 ==> evicted in old(mapInfo) && old(mapInfo)[evicted].inTried)
          && (evicted != -1 ==> evicted in mapInfo && !mapInfo[evicted].inTried)
    {
      hide StateOk;
      evicted, victim := -1, -1;
      nLastGood := time;
      var id := Find(addr.net);
      if id == -1 || mapInfo[id].address.service != addr {
        return;
      }
      EntryState(Snap(), {}, 0, id);
      Touch(id, mapInfo[id].(lastSuccess := time, lastTry := time, attempts := 0), {}, 0);
      if mapInfo[id].inTried {
        return;
      }
      var bucket := FindBucket(id);
      ghost var touched := mapInfo;
      evicted, victim := MakeTried(id);
      forall y | y in old(mapInfo) && y != id && y != evicted && y != victim
        ensures Kept(old(mapInfo), mapInfo, y)
      {
        assert Kept(touched, mapInfo, y);
      }
    }

    method Attempt(addr: Service, countFailure: bool, time: int)
      requires Valid() && time >= 0
      modifies this`mapInfo
      ensures Valid()
      ensures var id := old(Find(addr.net));
        if id == -1 || old(mapInfo)[id].address.service != addr then mapInfo == old(mapInfo)
        else if countFailure && old(mapInfo)[id].lastCountAttempt < nLastGood then
          mapInfo == old(mapInfo)[id := old(mapInfo)[id].(lastTry := time, lastCountAttempt := time,
                                                          attempts := old(mapInfo)[id].attempts + 1)]
        else mapInfo == old(mapInfo)[id := old(mapInfo)[id].(lastTry := time)]
    {
      hide StateOk;
      var id := Find(addr.net);
      if id == -1 || mapInfo[id].address.service != addr {
        return;
      }
      EntryState(Snap(), {}, 0, id);
      var info := mapInfo[id].(lastTry := time);
      if countFailure && info.lastCountAttempt < nLastGood {
        info := info.(lastCountAttempt := time, attempts := info.attempts + 1);
      }
      Touch(id, info, {}, 0);
    }

    method Connected(addr: Service, time: int)
      requires Valid()
      modifies this`mapInfo
      ensures Valid()
      ensures var id := old(Find(addr.net));
        if id != -1 && old(mapInfo)[id].address.service == addr && time - old(mapInfo)[id].address.time > 20 * 60 then
          mapInfo == old(mapInfo)[id := old(mapInfo)[id].(address := old(mapInfo)[id].address.(time := time))]
        else mapInfo == old(mapInfo)
    {
      hide StateOk;
      var id := Find(addr.net);
      if id == -1 || mapInfo[id].address.service != addr {
        return;
      }
      EntryState(Snap(), {}, 0, id);
      var info := mapInfo[id];
      if time - info.address.time > 20 * 60 {
        Touch(id, info.(address := info.address.(time := time)), {}, 0);
      }
    }

    method SetServices(addr: Service, services: bv64)
      requires Valid()
      modifies this`mapInfo
      ensures Valid()
      ensures var id := old(Find(addr.net));
        if id != -1 && old(mapInfo)[id].address.service == addr then
          mapInfo == old(mapInfo)[id := old(mapInfo)[id].(address := old(mapInfo)[id].address.(services := services))]
        else mapInfo == old(mapInfo)
    {
      hide StateOk;
      var id := Find(addr.net);
      if id == -1 || mapInfo[id].address.service != addr {
        return;
      }
      EntryState(Snap(), {}, 0, id);
      Touch(id, mapInfo[id].(address := mapInfo[id].address.(services := services)), {}, 0);
    }

    /** Whether the slot takes an entry that is not in it: it is free, or its occupant is terrible or has
        another place while the entry has none. */
    method Admits(p: Slot, id: int, now: int, ghost floating: set<int>, ghost extra: int) returns (insert: bool)
      requires Inv(floating, extra) && p in vvNew && id in mapInfo && vvNew[p] != id
      ensures insert <==> EntersSlot(mapInfo, vvNew, p, id, now)
    {
      hide StateOk, Info.IsTerrible;
      insert := vvNew[p] == -1;
      if !insert {
        SlotEntry(Snap(), floating, extra, p);
        var existing := mapInfo[vvNew[p]];
        insert := existing.IsTerrible(now) || (existing.refCount > 1 && mapInfo[id].refCount == 0);
      }
    }

    /** Give an entry its slot; whatever is there loses that place. */
    method TakeSlot(id: int, p: Slot, ghost floating: set<int>, ghost extra: int)
      requires Inv(floating, extra) && id in mapInfo && !mapInfo[id].inTried && mapInfo[id].refCount < MAX_REFS
      requires p in vvNew && vvNew[p] != id && p.pos == h.NewPos(nKey, mapInfo[id].address.service, p.bucket)
      modifies this`mapInfo, this`mapAddr, this`vRandom, this`nNew, this`vvNew
      ensures Inv(floating - {id}, if id in floating then extra - 1 else extra) && vvNew == old(vvNew)[p := id]
      ensures SameButRandom(Taken(old(mapInfo), old(vvNew)[p], id), mapInfo)
      ensures id in mapInfo && mapInfo.Keys <= old(mapInfo).Keys && old(vvNew)[p] !in floating
      ensures mapInfo[id] == old(mapInfo)[id].(refCount := old(mapInfo)[id].refCount + 1, randomPos := mapInfo[id].randomPos)
      ensures forall y :: y in old(mapInfo) && y != id && y != old(vvNew)[p] ==> Kept(old(mapInfo), mapInfo, y)
    {
      hide StateOk, SameButRandom, Released, Taken;
      ClearNew(p, floating, extra);
      assert Kept(old(mapInfo), mapInfo, id);
      TakenNow(old(mapInfo), old(vvNew)[p], id, mapInfo);
      FillKeeps(Snap(), floating, extra, p, id);
      ghost var cleared := mapInfo;
      mapInfo := mapInfo[id := mapInfo[id].(refCount := mapInfo[id].refCount + 1)];
      vvNew := vvNew[p := id];
      forall y | y in old(mapInfo) && y != id && y != old(vvNew)[p]
        ensures Kept(old(mapInfo), mapInfo, y)
      {
        assert Kept(old(mapInfo), cleared, y);
      }
    }

    /** Try to give an entry one more place in the new table; one that has none yet is deleted if it gets none. */
    method Place(id: int, p: Slot, now: int) returns (ghost victim: int)
      requires id in mapInfo && !mapInfo[id].inTried && mapInfo[id].refCount < MAX_REFS
      requires if mapInfo[id].refCount == 0 then Inv({id}, 1) else Inv({}, 0)
      requires p in vvNew && p.pos == h.NewPos(nKey, mapInfo[id].address.service, p.bucket)
      modifies this`mapInfo, this`mapAddr, this`vRandom, this`nNew, this`vvNew
      ensures Valid()
      ensures Offered(old(mapInfo), old(vvNew), old(mapAddr), p, id, now, mapInfo, vvNew, mapAddr, victim)
    {
      hide StateOk, SameButRandom, Taken, EntersSlot, Kept, Offered;
      victim := -1;
      ghost var floating := if mapInfo[id].refCount == 0 then {id} else {};
      ghost var extra := if mapInfo[id].refCount == 0 then 1 else 0;
      ghost var infos, t, addrs := mapInfo, vvNew, mapAddr;
      FloatingNowhere(Snap(), floating, extra, id);
      EntryState(Snap(), floating, extra, id);
      if vvNew[p] == id {
        OfferedStays(infos, t, addrs, p, id, now);
        return;
      }
      var insert := Admits(p, id, now, floating, extra);
      if insert {
        victim := vvNew[p];
        TakeSlot(id, p, floating, extra);
        assert floating - {id} == {};
        OfferedTaken(infos, t, addrs, p, id, now, mapInfo, mapAddr);
      } else if mapInfo[id].refCount == 0 {
        Delete(id, floating, extra);
        assert floating - {id} == {};
        OfferedGone(infos, t, addrs, p, id, now, mapInfo);
      } else {
        OfferedStays(infos, t, addrs, p, id, now);
      }
    }

    /** Periodic update of a known time, hourly while the address is currently online, else daily. */
    static method UpdatedTime(known: int, announced: int, penalty: int, now: int) returns (time: int)
      ensures time == RefreshedTime(known, announced, penalty, now)
    {
      var online := now - announced < 24 * 60 * 60;
      var interval := if online then 60 * 60 else 24 * 60 * 60;
      time := known;
      if announced != 0 && (known == 0 || known < announced - interval - penalty) {
        time := if announced - penalty > 0 then announced - penalty else 0;
      }
    }

    /** The stochastic part: with n places it is 2^n times harder to get one more. */
    static method Drawn(refCount: nat, draw: nat) returns (ok: bool)
      ensures ok <==> draw % Pow2(refCount) == 0
    {
      var factor := 1;
      for n := 0 to refCount
        invariant factor == Pow2(n)
      {
        factor := factor * 2;
      }
      var random := draw % factor;
      return !(factor > 1 && random != 0);
    }

    /** Refresh a known entry; say whether it may get one more place. */
    method Refresh(id: int, address: Address, penalty: int, now: int, draw: nat) returns (proceed: bool)
      requires Valid() && id in mapInfo
      modifies this`mapInfo
      ensures Valid()
      ensures mapInfo == old(mapInfo)[id := RefreshedInfo(old(mapInfo)[id], address, penalty, now)]
      ensures proceed <==> OneMorePlace(mapInfo[id], address.time, draw)
      ensures proceed ==> !mapInfo[id].inTried && 0 < mapInfo[id].refCount < MAX_REFS
    {
      hide StateOk, BothServices, RefreshedTime;
      var info := mapInfo[id];
      var time := UpdatedTime(info.address.time, address.time, penalty, now);
      info := info.(address := Address(info.address.service, BothServices(info.address.services, address.services), time));
      assert info == RefreshedInfo(mapInfo[id], address, penalty, now);
      hide RefreshedInfo, Pow2;
      EntryState(Snap(), {}, 0, id);
      Touch(id, info, {}, 0);
      if address.time == 0 || (info.address.time != 0 && address.time <= info.address.time) {
        return false;
      }
      if info.inTried || info.refCount == MAX_REFS {
        return false;
      }
      proceed := Drawn(info.refCount, draw);
    }

    /** An address that was not known is stored with one place exactly when its slot is open; else
        nothing changes but the next id. */
    ghost predicate NewcomerStored(was: State, address: Address, source: NetAddr, penalty: int, now: int)
      reads this
    {
      var p, id, net := h.NewSlot(nKey, address.service, source), was.count, address.service.net;
      && p in was.vvNew
      && if Open(was.infos, was.vvNew, p, now) then
           && id in mapInfo
           && mapInfo[id] == FreshInfo(address, source, penalty).(refCount := 1, randomPos := mapInfo[id].randomPos)
           && net in mapAddr && mapAddr[net] == id && vvNew == was.vvNew[p := id]
           && SameButRandom(Released(was.infos, was.vvNew[p])[id := mapInfo[id]], mapInfo)
         else SameButRandom(was.infos, mapInfo) && mapAddr == was.addrs && vvNew == was.vvNew
    }

    /** A known address is refreshed and, if it is due one more place, offered its slot. */
    ghost predicate KnownRefreshed(was: State, address: Address, source: NetAddr, penalty: int, now: int, draw: nat)
      reads this
    {
      var net := address.service.net;
      && net in was.addrs && was.addrs[net] in was.infos
      && var id := was.addrs[net];
         var info := RefreshedInfo(was.infos[id], address, penalty, now);
         var p, infos := h.NewSlot(nKey, info.address.service, source), was.infos[id := info];
         && p in was.vvNew
         && if !OneMorePlace(info, address.time, draw) then mapInfo == infos && vvNew == was.vvNew
            else
              && SameButRandom(Placed(infos, was.vvNew, p, id, now), mapInfo)
              && vvNew == if EntersSlot(infos, was.vvNew, p, id, now) then was.vvNew[p := id] else was.vvNew
    }

    /** Create a counted entry that has no place yet. */
    method CreateCounted(address: Address, source: NetAddr, penalty: int) returns (id: int)
      requires Valid() && Find(address.service.net) == -1
      modifies this`nIdCount, this`mapInfo, this`mapAddr, this`vRandom, this`nNew
      ensures Inv({id}, 1) && 0 <= id == old(nIdCount) && id !in old(mapInfo)
      ensures mapInfo == old(mapInfo)[id := FreshInfo(address, source, penalty).(randomPos := mapInfo[id].randomPos)]
      ensures address.service.net !in old(mapAddr) && mapAddr == old(mapAddr)[address.service.net := id]
      ensures !mapInfo[id].inTried && mapInfo[id].refCount == 0
    {
      hide StateOk;
      AbsentAddress(Snap(), address.service.net);
      id := Create(address, source, {}, 0);
      assert {} + {id} == {id};
      EntryState(Snap(), {id}, 0, id);
      var time := if address.time > penalty then address.time - penalty else 0;
      Touch(id, mapInfo[id].(address := mapInfo[id].address.(time := time)), {id}, 0);
      RecountState(Snap(), {id}, 0, 1);
      nNew := nNew + 1;
    }

    /** Add an address that is not known. */
    method AddUnknown(address: Address, source: NetAddr, penalty: int, now: int) returns (ghost victim: int)
      requires Valid() && Find(address.service.net) == -1
      modifies this`nIdCount, this`mapInfo, this`mapAddr, this`vRandom, this`nNew, this`vvNew
      ensures Valid() && NewcomerStored(old(Snap()), address, source, penalty, now)
      ensures forall y :: y in old(mapInfo) && y != victim ==> Kept(old(mapInfo), mapInfo, y)
      ensures var p := h.NewSlot(nKey, address.service, source);
        p in vvNew && (old(nIdCount) in mapInfo <==> vvNew[p] == old(nIdCount))
    {
      hide StateOk, SameButRandom, Released, Taken, EntersSlot, Placed, Open;
      FullTables(Snap(), {}, 0);
      NoEntryMinusOne(Snap(), {}, 0);
      var p := h.NewSlot(nKey, address.service, source);
      if vvNew[p] != -1 {
        SlotEntry(Snap(), {}, 0, p);
      }
      var id := CreateCounted(address, source, penalty);
      ghost var created := mapInfo;
      victim := Place(id, p, now);
      NewcomerOffered(old(mapInfo), old(vvNew), p, id, created[id], now, mapInfo);
      forall y | y in old(mapInfo) && y != victim
        ensures Kept(old(mapInfo), mapInfo, y)
      {
        assert Kept(created, mapInfo, y);
      }
      if id in mapInfo {
        EntryState(Snap(), {}, 0, id);
      }
    }

    /** Refresh a known address and offer its entry the slot named by this source. */
    method AddKnown(id: int, address: Address, source: NetAddr, penalty: int, now: int, draw: nat)
      returns (ghost victim: int)
      requires Valid() && id in mapInfo && Find(address.service.net) == id
      modifies this`mapInfo, this`mapAddr, this`vRandom, this`nNew, this`vvNew
      ensures Valid() && KnownRefreshed(old(Snap()), address, source, penalty, now, draw)
      ensures forall y :: y in old(mapInfo) && y != id && y != victim ==> Kept(old(mapInfo), mapInfo, y)
      ensures id in mapInfo && mapInfo[id].inTried == old(mapInfo)[id].inTried
      ensures mapInfo[id].address.service == old(mapInfo)[id].address.service
      ensures old(mapInfo)[id].refCount <= mapInfo[id].refCount <= old(mapInfo)[id].refCount + 1
    {
      hide StateOk, SameButRandom, Released, Taken, EntersSlot, Placed, OneMorePlace;
      victim := -1;
      FullTables(Snap(), {}, 0);
      NoEntryMinusOne(Snap(), {}, 0);
      var proceed := Refresh(id, address, penalty, now, draw);
      ghost var refreshed := mapInfo;
      var p := h.NewSlot(nKey, mapInfo[id].address.service, source);
      assert p in vvNew;
      if !proceed {
        return;
      }
      victim := Place(id, p, now);
      forall y | y in old(mapInfo) && y != id && y != victim
        ensures Kept(old(mapInfo), mapInfo, y)
      {
        assert Kept(refreshed, mapInfo, y);
      }
    }

    /** Add an address to the new table, or refresh what is known about it. */
    method Add(address: Address, source: NetAddr, timePenalty: int, now: int, draw: nat)
      returns (isNew: bool, ghost victim: int)
      requires Valid()
      modifies this
      ensures Valid() && nKey == old(nKey) && nLastGood == old(nLastGood)
      ensures isNew <==> routable(address.service.net) && old(Find(address.service.net)) == -1
      ensures !routable(address.service.net) ==> Snap() == old(Snap())
      ensures var id := old(Find(address.service.net));
        && (forall y :: y in old(mapInfo) && y != id && y != victim ==> Kept(old(mapInfo), mapInfo, y))
        && (id != -1 ==> id in mapInfo && mapInfo[id].inTried == old(mapInfo)[id].inTried)
        && (id != -1 ==> mapInfo[id].address.service == old(mapInfo)[id].address.service)
        && (id != -1 ==> old(mapInfo)[id].refCount <= mapInfo[id].refCount <= old(mapInfo)[id].refCount + 1)
      ensures var p := h.NewSlot(nKey, address.service, source);
        isNew ==> p in vvNew && (old(nIdCount) in mapInfo <==> vvNew[p] == old(nIdCount))
      ensures var penalty := if address.service.net == source then 0 else timePenalty;
        routable(address.service.net) ==>
          if isNew then NewcomerStored(old(Snap()), address, source, penalty, now)
          else KnownRefreshed(old(Snap()), address, source, penalty, now, draw)
    {
      hide StateOk, NewcomerStored, KnownRefreshed;
      var net := address.service.net;
      if !routable(net) {
        return false, -1;
      }
      NoEntryMinusOne(Snap(), {}, 0);
      var id := Find(net);
      var penalty := if net == source then 0 else timePenalty;
      isNew := id == -1;
      if isNew {
        victim := AddUnknown(address, source, penalty, now);
      } else {
        victim := AddKnown(id, address, source, penalty, now, draw);
      }
    }

    method Shuffle(n: int)
      requires Valid() && 0 <= n < |vRandom|
      modifies this`mapInfo, this`vRandom
      ensures Valid() && SameButRandom(old(mapInfo), mapInfo)
      ensures |vRandom| == |old(vRandom)| && vRandom[..n] == old(vRandom)[..n]
      ensures vRandom[n] in mapInfo && vRandom[n] !in vRandom[..n]
    {
      hide StateOk, SameButRandom;
      var pos: int :| n <= pos < |vRandom|;
      RandomState(Snap(), {}, 0);
      SwapRandom(n, pos);
      SwapKeeps(old(Snap()), mapInfo, vRandom);
    }

    /** A random sample of good entries: at most 23 per cent of them and at most 2500. */
    method GetAddr(now: int) returns (sample: seq<Address>, ghost ids: seq<int>)
      requires Valid()
      modifies this`mapInfo, this`vRandom
      ensures Valid() && SameButRandom(old(mapInfo), mapInfo) && |vRandom| == |old(vRandom)|
      ensures |sample| == |ids| && |sample| <= 2500 && |sample| <= 23 * |vRandom| / 100
      ensures forall i :: 0 <= i < |ids| ==> Sampled(mapInfo, ids[i], sample[i], now)
      ensures forall i, j :: 0 <= i < j < |ids| ==> ids[i] != ids[j]
      ensures var limit := if 23 * |vRandom| / 100 > 2500 then 2500 else 23 * |vRandom| / 100;
        |sample| == if |Usable(mapInfo, now)| < limit then |Usable(mapInfo, now)| else limit
    {
      hide StateOk, SameButRandom, Usable, Info.IsTerrible;
      SameButRandomRefl(mapInfo);
      var nodes := 23 * |vRandom| / 100;
      if nodes > 2500 {
        nodes := 2500;
      }
      sample, ids := [], [];
      var n := 0;
      while n < |vRandom| && |sample| < nodes
        invariant 0 <= n <= |vRandom| == |old(vRandom)|
        invariant Valid() && SameButRandom(old(mapInfo), mapInfo)
        invariant |sample| == |ids| <= nodes
        invariant forall i :: 0 <= i < |ids| ==> ids[i] in vRandom[..n] && Sampled(mapInfo, ids[i], sample[i], now)
        invariant forall i, j :: 0 <= i < j < |ids| ==> ids[i] != ids[j]
        invariant forall k :: 0 <= k < n && vRandom[k] in Usable(mapInfo, now) ==> vRandom[k] in ids
        decreases |vRandom| - n
      {
        ghost var before, order := mapInfo, vRandom;
        Shuffle(n);
        assert forall k :: 0 <= k < n ==> vRandom[k] == vRandom[..n][k] == order[..n][k] == order[k];
        SameButRandomTrans(old(mapInfo), before, mapInfo);
        SampledStays(before, mapInfo, ids, sample, now);
        var id := vRandom[n];
        assert vRandom[..n + 1] == vRandom[..n] + [id];
        UsableId(mapInfo, id, now);
        if !mapInfo[id].IsTerrible(now) {
          sample := sample + [mapInfo[id].address];
          ids := ids + [id];
        }
        n := n + 1;
      }
      RandomState(Snap(), {}, 0);
      SampleSize(mapInfo, vRandom, ids, sample, now, n == |vRandom|);
    }
  }

  datatype Op =
    | OpAdd(address: Address, source: NetAddr, timePenalty: int, now: int, draw: nat)
    | OpGood(service: Service, time: int)
    | OpAttempt(service: Service, countFailure: bool, time: int)
    | OpConnected(service: Service, time: int)
    | OpSetServices(service: Service, services: bv64)
    | OpGetAddr(now: int)
  {
    predicate PositiveTime() {
      (OpGood? || OpAttempt? || OpConnected?) ==> time > 0
    }
  }

  /** Every state reached from an empty manager passes the consistency walk. */
  method Run(h: Hashes, routable: NetAddr -> bool, key: nat, ops: seq<Op>) returns (manager: AddrMan)
    requires forall i :: 0 <= i < |ops| ==> ops[i].PositiveTime()
    ensures manager.Valid() && AddrManCheck.CheckPasses(manager.Snap())
  {
    hide StateOk, AddrManCheck.CheckPasses;
    manager := new AddrMan(h, routable, key);
    for i := 0 to |ops|
      invariant manager.Valid() && fresh(manager)
    {
      match ops[i] {
        case OpAdd(address, source, timePenalty, now, draw) =>
          var _, _ := manager.Add(address, source, timePenalty, now, draw);
        case OpGood(service, time) =>
          var _, _ := manager.Good(service, time);
        case OpAttempt(service, countFailure, time) =>
          manager.Attempt(service, countFailure, time);
        case OpConnected(service, time) =>
          manager.Connected(service, time);
        case OpSetServices(service, services) =>
          manager.SetServices(service, services);
        case OpGetAddr(now) =>
          var _, _ := manager.GetAddr(now);
      }
    }
    AddrManCheck.ConsistentPasses(manager.Snap());
  }

  ghost predicate Sampled(infos: Infos, id: int, address: Address, now: int) {
    id in infos && infos[id].address == address && !infos[id].IsTerrible(now)
  }

  /** The entries that GetAddr may give away. */
  ghost function Usable(infos: Infos, now: int): set<int> {
    set id | id in infos && !infos[id].IsTerrible(now)
  }

  lemma UsableId(infos: Infos, id: int, now: int)
    requires id in infos
    ensures id in Usable(infos, now) <==> !infos[id].IsTerrible(now)
  {
  }

  lemma SampleSize(infos: Infos, random: seq<int>, ids: seq<int>, sample: seq<Address>, now: int, all: bool)
    requires RandomOk(infos, random) && |ids| == |sample|
    requires forall i :: 0 <= i < |ids| ==> Sampled(infos, ids[i], sample[i], now)
    requires forall i, j :: 0 <= i < j < |ids| ==> ids[i] != ids[j]
    requires all ==> forall k :: 0 <= k < |random| && random[k] in Usable(infos, now) ==> random[k] in ids
    ensures |ids| <= |Usable(infos, now)| && (all ==> |ids| == |Usable(infos, now)|)
  {
    var chosen := set x | x in ids;
    Sets.DistinctSize(ids);
    Sets.SubsetSize(chosen, Usable(infos, now));
    if all {
      forall id | id in Usable(infos, now)
        ensures id in chosen
      {
        assert random[infos[id].randomPos] == id;
      }
      assert chosen == Usable(infos, now);
    }
  }

  lemma SampledStays(a: Infos, b: Infos, ids: seq<int>, sample: seq<Address>, now: int)
    requires SameButRandom(a, b) && |ids| == |sample|
    requires forall i :: 0 <= i < |ids| ==> Sampled(a, ids[i], sample[i], now)
    ensures forall i :: 0 <= i < |ids| ==> Sampled(b, ids[i], sample[i], now)
    ensures Usable(a, now) == Usable(b, now)
  {
    assert forall id :: id in Usable(a, now) <==> id in Usable(b, now);
  }
}
