/**
 The consistency walk of src/addrman.cpp, condition by condition, and the proof that every
 state the operations can reach passes it.
 */
module AddrManCheck {
  import opened AddrManState
  import opened Sets

  /** All the slots of a table that hold an id, wherever they are. */
  ghost function Occurrences(t: Table, id: int): set<Slot> {
    set p | p in t && t[p] == id
  }

  ghost predicate EntryPasses(s: State, id: int, info: Info) {
    && (if info.inTried then info.lastSuccess != 0 && info.refCount == 0 else 0 < info.refCount <= MAX_REFS)
    && info.Net() in s.addrs && s.addrs[info.Net()] == id
    && 0 <= info.randomPos < |s.random| && s.random[info.randomPos] == id
    && info.lastTry >= 0 && info.lastSuccess >= 0
  }

  /** The walk finds nothing to complain about. */
  ghost predicate CheckPasses(s: State) {
    && |s.random| == s.nTried + s.nNew
    && (forall id :: id in s.infos ==> EntryPasses(s, id, s.infos[id]))
    && |TriedIds(s.infos)| == s.nTried && |NewIds(s.infos)| == s.nNew
    && (forall p :: p in s.vvTried && s.vvTried[p] != -1 ==>
          s.vvTried[p] in TriedIds(s.infos) && p == s.TriedSlotOf(s.vvTried[p]))
    && (forall id :: id in TriedIds(s.infos) ==> |Occurrences(s.vvTried, id)| == 1)
    && (forall p :: p in s.vvNew && s.vvNew[p] != -1 ==>
          s.vvNew[p] in NewIds(s.infos) && p.pos == s.h.NewPos(s.key, s.ServiceOf(s.vvNew[p]), p.bucket))
    && (forall id :: id in NewIds(s.infos) ==> |Occurrences(s.vvNew, id)| == s.infos[id].refCount)
  }

  lemma {:induction false} OnePerBucket(slots: set<Slot>)
    requires forall p, q :: p in slots && q in slots && p.bucket == q.bucket ==> p == q
    ensures |slots| == |set p | p in slots :: p.bucket|
  {
    var buckets := set p | p in slots :: p.bucket;
    if slots == {} {
      assert buckets == {};
    } else {
      var p :| p in slots;
      OnePerBucket(slots - {p});
      assert buckets == (set q | q in slots - {p} :: q.bucket) + {p.bucket};
    }
  }

  /** Counting slots is counting buckets, since an entry fits one position of each bucket. */
  lemma OccurrencesAreBuckets(s: State, id: int)
    requires StateOk(s, {}, 0) && id in s.infos
    ensures |Occurrences(s.vvNew, id)| == |Buckets(s.h, s.key, s.ServiceOf(id), s.vvNew, id)|
  {
    var service := s.ServiceOf(id);
    var buckets := Buckets(s.h, s.key, service, s.vvNew, id);
    var slots := Occurrences(s.vvNew, id);
    NoEntryMinusOne(s, {}, 0);
    OnePerBucket(slots);
    var image := set p | p in slots :: p.bucket;
    forall b | b in buckets
      ensures b in image
    {
      assert Slot(b, s.h.NewPos(s.key, service, b)) in slots;
    }
    assert forall b :: b in image <==> b in buckets;
    assert image == buckets;
  }

  /** vRandom lists as many ids as there are entries. */
  lemma RandomSize(s: State)
    requires StateOk(s, {}, 0)
    ensures |s.random| == |TriedIds(s.infos)| + |NewIds(s.infos)|
  {
    hide TablesOk;
    DistinctSize(s.random);
    forall id | id in s.infos
      ensures id in s.random
    {
      assert s.random[s.infos[id].randomPos] == id;
    }
    assert (set id | id in s.random) == s.infos.Keys;
    assert TriedIds(s.infos) + NewIds(s.infos) == s.infos.Keys;
    assert TriedIds(s.infos) * NewIds(s.infos) == {};
  }

  lemma EntriesPass(s: State)
    requires StateOk(s, {}, 0)
    ensures forall id :: id in s.infos ==> EntryPasses(s, id, s.infos[id])
  {
  }

  lemma TriedPasses(s: State)
    requires TriedOk(s.h, s.key, s.infos, s.vvTried)
    ensures forall p :: p in s.vvTried && s.vvTried[p] != -1 ==>
      s.vvTried[p] in TriedIds(s.infos) && p == s.TriedSlotOf(s.vvTried[p])
    ensures -1 !in s.infos ==> forall id :: id in TriedIds(s.infos) ==> |Occurrences(s.vvTried, id)| == 1
  {
    if -1 !in s.infos {
      forall id | id in TriedIds(s.infos)
        ensures |Occurrences(s.vvTried, id)| == 1
      {
        assert Occurrences(s.vvTried, id) == {s.TriedSlotOf(id)};
      }
    }
  }

  lemma NewPasses(s: State)
    requires StateOk(s, {}, 0)
    ensures forall p :: p in s.vvNew && s.vvNew[p] != -1 ==>
      s.vvNew[p] in NewIds(s.infos) && p.pos == s.h.NewPos(s.key, s.ServiceOf(s.vvNew[p]), p.bucket)
    ensures forall id :: id in NewIds(s.infos) ==> |Occurrences(s.vvNew, id)| == s.infos[id].refCount
  {
    forall id | id in NewIds(s.infos)
      ensures |Occurrences(s.vvNew, id)| == s.infos[id].refCount
    {
      OccurrencesAreBuckets(s, id);
    }
  }

  /** Every consistent state passes the walk. */
  lemma ConsistentPasses(s: State)
    requires StateOk(s, {}, 0)
    ensures CheckPasses(s)
  {
    hide NewOk, RefOk, TriedOk, EntriesOk, AddrOk, RandomOk, Occurrences, EntryPasses;
    RandomSize(s);
    EntriesPass(s);
    NoEntryMinusOne(s, {}, 0);
    TriedPasses(s);
    NewPasses(s);
    assert NewIds(s.infos) - {} == NewIds(s.infos);
  }
}
