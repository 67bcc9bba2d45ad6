/**
 The partially downloaded block of BIP 152 (src/blockencodings.h, src/blockencodings.cpp):
 initialising it from a compact message, filling what is missing, and the list of wanted indexes.
 */
module PartialBlock {
  import opened CompactBlock
  import opened Wrappers

  /** What a slot with a short id holds once all entries are known. */
  ghost predicate Offered(slot: Option<Tx>, sid: ShortId, entries: seq<Entry>, id: nat) {
    && (slot.Some? ==> exists k :: 0 <= k < |entries| && Matches(sid, entries, k, id) && slot == Some(entries[k].tx))
    && (forall k :: 0 <= k < |entries| && OnlyMatch(sid, entries, |entries|, k, id) ==> slot == Some(entries[k].tx))
  }

  /** The slots of a message before anything is matched: prefilled ones filled, the rest free. */
  ghost predicate Layout(base: seq<Option<Tx>>, msg: Message) {
    && |base| == |msg.shortIds| + |msg.prefilled|
    && CountNone(base) == |msg.shortIds|
    && Holds(base, msg.prefilled, |msg.prefilled|)
  }

  /** Prefilled transactions in place, and each short id's slot as the matching loops leave it. */
  ghost predicate Reconstructed(avail: seq<Option<Tx>>, base: seq<Option<Tx>>, offer: Offer)
    requires CountNone(base) == |offer.shortIds|
  {
    && |avail| == |base|
    && (forall s :: 0 <= s < |base| && base[s].Some? ==> avail[s] == base[s])
    && (forall i :: 0 <= i < |offer.shortIds| ==> avail[FreeSlot(base, i)] == offer.Final(offer.shortIds[i]))
  }

  predicate Rejected(msg: Message) {
    || msg.headerNull
    || (|msg.shortIds| == 0 && |msg.prefilled| == 0)
    || |msg.shortIds| + |msg.prefilled| > MAX_COUNT
    || !AllPlaced(msg.prefilled, |msg.shortIds|)
  }

  // ----- Steps of the matching loops -----

  /** The mapping is one to one. */
  lemma SlotMapInjective(ids: map<nat, nat>, base: seq<Option<Tx>>, shortIds: seq<nat>, a: nat, b: nat)
    requires SlotMap(ids, base, shortIds, |shortIds|) && a in ids && b in ids && ids[a] == ids[b]
    ensures a == b
  {
    hide FreeSlot, CountNone;
    var i :| 0 <= i < |shortIds| && shortIds[i] == a && ids[a] == FreeSlot(base, i);
    var j :| 0 <= j < |shortIds| && shortIds[j] == b && ids[b] == FreeSlot(base, j);
    if i < j {
      FreeSlotOrder(base, i, j);
    } else if j < i {
      FreeSlotOrder(base, j, i);
    }
  }

  /** Slots outside the map are as they were; the others are the cells of their short ids. */
  ghost predicate Matched(avail: seq<Option<Tx>>, have: seq<bool>, base: seq<Option<Tx>>, ids: map<nat, nat>,
          cells: map<nat, Cell>) {
    && |avail| == |have| == |base| && cells.Keys == ids.Keys
    && (forall id :: id in ids ==> ids[id] < |base| && base[ids[id]].None?)
    && (forall id :: id in ids ==> avail[ids[id]] == cells[id].slot && have[ids[id]] == cells[id].seen)
    && (forall s :: 0 <= s < |base| && base[s].Some? ==> avail[s] == base[s])
  }

  /** One matching entry: its slot takes a new content, all other slots are as before. */
  lemma MatchedTake(avail: seq<Option<Tx>>, have: seq<bool>, base: seq<Option<Tx>>, ids: map<nat, nat>,
          shortIds: seq<nat>, cells: map<nat, Cell>, me: nat, c: Cell)
    requires Matched(avail, have, base, ids, cells) && me in ids && SlotMap(ids, base, shortIds, |shortIds|)
    ensures Matched(avail[ids[me] := c.slot], have[ids[me] := c.seen], base, ids, cells[me := c])
  {
    hide SlotMap;
    forall id | id in ids && ids[id] == ids[me] ensures id == me {
      SlotMapInjective(ids, base, shortIds, id, me);
    }
  }

  /** Every short id has a transaction. */
  ghost predicate CellsFull(shortIds: seq<nat>, cells: map<nat, Cell>) {
    forall i :: 0 <= i < |shortIds| ==> shortIds[i] in cells && cells[shortIds[i]].slot.Some?
  }

  /** The count tells when every short id has a transaction. */
  lemma CountFull(avail: seq<Option<Tx>>, have: seq<bool>, base: seq<Option<Tx>>, ids: map<nat, nat>,
          shortIds: seq<nat>, cells: map<nat, Cell>)
    requires Matched(avail, have, base, ids, cells) && SlotMap(ids, base, shortIds, |shortIds|)
    requires |shortIds| == CountNone(base) && Distinct(shortIds)
    ensures Filled(avail, base) == CountNone(base) <==> CellsFull(shortIds, cells)
  {
    hide Filled, CountNone, FreeSlot, SlotMap, Distinct;
    AllFilled(avail, base);
    forall i | 0 <= i < |shortIds|
      ensures shortIds[i] in ids && ids[shortIds[i]] == FreeSlot(base, i)
    {
      SlotOfId(ids, base, shortIds, i);
    }
    forall s | 0 <= s < |base| && base[s].None?
      ensures exists i :: 0 <= i < |shortIds| && ids[shortIds[i]] == s
    {
      SlotOfSome(base, s);
      var k :| 0 <= k < CountNone(base) && FreeSlot(base, k) == s;
      assert ids[shortIds[k]] == s;
    }
  }

  lemma MatchedStart(base: seq<Option<Tx>>, ids: map<nat, nat>, shortIds: seq<nat>)
    requires SlotMap(ids, base, shortIds, |shortIds|)
    ensures Matched(base, seq(|base|, _ => false), base, ids, map id | id in ids :: Cell(None, false))
  {
    hide FreeSlot, CountNone;
  }

  lemma MatchedEnd(avail: seq<Option<Tx>>, have: seq<bool>, base: seq<Option<Tx>>, ids: map<nat, nat>,
          cells: map<nat, Cell>, offer: Offer)
    requires Matched(avail, have, base, ids, cells) && CountNone(base) == |offer.shortIds|
    requires SlotMap(ids, base, offer.shortIds, |offer.shortIds|) && Distinct(offer.shortIds)
    requires ExtraCells(offer, offer.ExtraStop(0), ids, cells)
    ensures Reconstructed(avail, base, offer)
  {
    hide FreeSlot, CountNone;
    forall i | 0 <= i < |offer.shortIds| ensures avail[FreeSlot(base, i)] == offer.Final(offer.shortIds[i]) {
      SlotOfId(ids, base, offer.shortIds, i);
    }
  }

  lemma SlotOfId(ids: map<nat, nat>, base: seq<Option<Tx>>, shortIds: seq<nat>, i: nat)
    requires SlotMap(ids, base, shortIds, |shortIds|) && Distinct(shortIds) && i < |shortIds|
    ensures shortIds[i] in ids && ids[shortIds[i]] == FreeSlot(base, i)
  {
    hide FreeSlot, CountNone;
    var j :| 0 <= j < |shortIds| && shortIds[j] == shortIds[i] && ids[shortIds[i]] == FreeSlot(base, j);
    assert j == i;
  }

  /** However the loops stopped: a slot holds what some entry offered, and what the only entry did. */
  lemma FinalOffered(offer: Offer, i: nat)
    requires i < |offer.shortIds|
    ensures Offered(offer.Final(offer.shortIds[i]), offer.sid, offer.pool + offer.extra, offer.shortIds[i])
  {
    var sid, pool, extra, id := offer.sid, offer.pool, offer.extra, offer.shortIds[i];
    var entries, slot := pool + extra, offer.Final(id);
    if slot.Some? {
      SomeOffered(offer, i);
    }
    forall k | 0 <= k < |entries| && OnlyMatch(sid, entries, |entries|, k, id)
      ensures slot == Some(entries[k].tx)
    {
      OnlyOffered(offer, i, k);
    }
  }

  lemma SomeOffered(offer: Offer, i: nat)
    requires i < |offer.shortIds| && offer.Final(offer.shortIds[i]).Some?
    ensures var entries, id := offer.pool + offer.extra, offer.shortIds[i];
      exists k :: 0 <= k < |entries| && Matches(offer.sid, entries, k, id) && offer.Final(id) == Some(entries[k].tx)
  {
    var sid, pool, extra, id := offer.sid, offer.pool, offer.extra, offer.shortIds[i];
    var entries, np, ne := pool + extra, PoolStop(sid, pool, offer.shortIds, 0), offer.ExtraStop(0);
    PoolLaw(sid, pool, np, id);
    ExtraLaw(offer.AfterPool(id), sid, offer.witnessHash, extra, ne, id);
    FirstSplit(sid, extra, ne, id);
    if offer.AfterPool(id).slot.Some? {
      var k :| 0 <= k < np && OnlyMatch(sid, pool, np, k, id);
      assert entries[k] == pool[k] && Matches(sid, entries, k, id);
    } else {
      var k: nat :| FirstMatch(sid, extra, ne, k, id);
      assert entries[|pool| + k] == extra[k] && Matches(sid, entries, |pool| + k, id);
    }
  }

  lemma OnlyOffered(offer: Offer, i: nat, k: nat)
    requires i < |offer.shortIds| && k < |offer.pool + offer.extra|
    requires OnlyMatch(offer.sid, offer.pool + offer.extra, |offer.pool + offer.extra|, k, offer.shortIds[i])
    ensures offer.Final(offer.shortIds[i]) == Some((offer.pool + offer.extra)[k].tx)
  {
    var sid, pool, extra, id := offer.sid, offer.pool, offer.extra, offer.shortIds[i];
    var entries := pool + extra;
    forall j | 0 <= j < |pool| && Matches(sid, pool, j, id) ensures j == k {
      assert Matches(sid, entries, j, id);
    }
    forall j | 0 <= j < |extra| && Matches(sid, extra, j, id) ensures |pool| + j == k {
      assert Matches(sid, entries, |pool| + j, id);
    }
    if k < |pool| {
      assert Matches(sid, pool, k, id);
      OnlyInPool(offer, i, k);
    } else {
      assert Matches(sid, extra, k - |pool|, id);
      OnlyInExtra(offer, i, k - |pool|);
    }
  }

  lemma OnlyInPool(offer: Offer, i: nat, k: nat)
    requires i < |offer.shortIds| && k < |offer.pool| && Matches(offer.sid, offer.pool, k, offer.shortIds[i])
    requires forall j :: 0 <= j < |offer.pool| && Matches(offer.sid, offer.pool, j, offer.shortIds[i]) ==> j == k
    requires forall j :: 0 <= j < |offer.extra| ==> !Matches(offer.sid, offer.extra, j, offer.shortIds[i])
    ensures offer.Final(offer.shortIds[i]) == Some(offer.pool[k].tx)
  {
    var sid, pool, id := offer.sid, offer.pool, offer.shortIds[i];
    var np := PoolStop(sid, pool, offer.shortIds, 0);
    PoolLaw(sid, pool, np, id);
    assert k < np;
    assert OnlyMatch(sid, pool, np, k, id);
    ExtraLaw(offer.AfterPool(id), sid, offer.witnessHash, offer.extra, offer.ExtraStop(0), id);
  }

  lemma OnlyInExtra(offer: Offer, i: nat, k: nat)
    requires i < |offer.shortIds| && k < |offer.extra| && Matches(offer.sid, offer.extra, k, offer.shortIds[i])
    requires forall j :: 0 <= j < |offer.pool| ==> !Matches(offer.sid, offer.pool, j, offer.shortIds[i])
    requires forall j :: 0 <= j < |offer.extra| && Matches(offer.sid, offer.extra, j, offer.shortIds[i]) ==> j == k
    ensures offer.Final(offer.shortIds[i]) == Some(offer.extra[k].tx)
  {
    var sid, extra, id := offer.sid, offer.extra, offer.shortIds[i];
    var ne := offer.ExtraStop(0);
    PoolLaw(sid, offer.pool, PoolStop(sid, offer.pool, offer.shortIds, 0), id);
    ExtraLaw(offer.AfterPool(id), sid, offer.witnessHash, extra, ne, id);
    assert k < ne;
    assert FirstMatch(sid, extra, ne, k, id);
  }

  class PartiallyDownloadedBlock {
    var headerNull: bool
    var txnAvailable: seq<Option<Tx>>
    var prefilledCount: nat
    var mempoolCount: nat

    constructor ()
      ensures headerNull && txnAvailable == [] && prefilledCount == 0 && mempoolCount == 0
    {
      headerNull, txnAvailable, prefilledCount, mempoolCount := true, [], 0, 0;
    }

    /** Place the prefilled transactions by their offsets. */
    method PlacePrefilled(msg: Message) returns (ok: bool)
      requires txnAvailable == Blank(|msg.shortIds| + |msg.prefilled|)
      modifies this`txnAvailable
      ensures ok <==> AllPlaced(msg.prefilled, |msg.shortIds|)
      ensures ok ==> Layout(txnAvailable, msg)
    {
      hide CountNone;
      var pre, shorts := msg.prefilled, |msg.shortIds|;
      CountNoneAll(shorts + |pre|);
      var last := -1;
      for i := 0 to |pre|
        invariant |txnAvailable| == shorts + |pre| && last == LastIndex(pre, i)
        invariant forall n :: 0 <= n < i ==> PlaceOk(pre, shorts, n)
        invariant Holds(txnAvailable, pre, i) && CountNone(txnAvailable) == shorts + |pre| - i
      {
        last := last + pre[i].index + 1;
        assert last == PlaceOf(pre, i);
        if pre[i].tx.None? || last > MAX_16 || last > shorts + i {
          assert !PlaceOk(pre, shorts, i);
          return false;
        }
        PlaceNext(txnAvailable, pre, shorts, i);
        txnAvailable := txnAvailable[last := pre[i].tx];
      }
      ok := true;
    }

    /** Step over filled slots: the scan stays in bounds and stops at the i-th free slot. */
    method SkipFilled(i: nat, start: nat) returns (offset: nat)
      requires i < CountNone(txnAvailable)
      requires i + start == if i == 0 then 0 else FreeSlot(txnAvailable, i - 1) + 1
      ensures i + offset == FreeSlot(txnAvailable, i)
    {
      hide CountNone, FreeSlot;
      offset := start;
      FreeSlotFrom(txnAvailable, i);
      while txnAvailable[i + offset].Some?
        invariant i + start <= i + offset <= FreeSlot(txnAvailable, i)
        decreases FreeSlot(txnAvailable, i) - offset
      {
        offset := offset + 1;
      }
    }

    /** Map every short id to its slot; crowded buckets and colliding ids fail. */
    method MapShortIds(shortIds: seq<nat>, crowded: nat -> bool) returns (ok: bool, ids: map<nat, nat>)
      requires CountNone(txnAvailable) == |shortIds| && |txnAvailable| <= MAX_16 + 1
      ensures ok <==> Distinct(shortIds) && forall i :: 0 <= i < |shortIds| ==> !crowded(i)
      ensures ok ==> SlotMap(ids, txnAvailable, shortIds, |shortIds|) && |ids| == |shortIds|
    {
      hide CountNone, FreeSlot, MapOk, Distinct, SlotMap;
      ids := map[];
      var offset := 0;
      MapNone(txnAvailable, shortIds);
      for i := 0 to |shortIds|
        invariant MapOk(ids, txnAvailable, shortIds, i)
        invariant i + offset == if i == 0 then 0 else FreeSlot(txnAvailable, i - 1) + 1
        invariant forall k :: 0 <= k < i ==> !crowded(k)
      {
        offset := SkipFilled(i, offset);
        MapOneMore(ids, txnAvailable, shortIds, i);
        var slot := (i + offset) % (MAX_16 + 1);
        assert slot == FreeSlot(txnAvailable, i);
        ids := ids[shortIds[i] := slot];
        if crowded(i) {
          return false, ids;
        }
      }
      MapAll(ids, txnAvailable, shortIds);
      ok := |ids| == |shortIds|;
    }

    /** What both matching loops keep. */
    ghost predicate Matching(have: seq<bool>, base: seq<Option<Tx>>, ids: map<nat, nat>, shortIds: seq<nat>,
            cells: map<nat, Cell>)
      reads this
    {
      && SlotMap(ids, base, shortIds, |shortIds|) && |ids| == |shortIds| == CountNone(base) && Distinct(shortIds)
      && Matched(txnAvailable, have, base, ids, cells)
      && mempoolCount == Filled(txnAvailable, base)
    }

    /** Set the slot of a matching entry and keep the count. */
    method SetSlot(id: nat, t: Option<Tx>, haveIn: seq<bool>, ids: map<nat, nat>, ghost base: seq<Option<Tx>>,
            ghost shortIds: seq<nat>, ghost cells: map<nat, Cell>)
      returns (have: seq<bool>)
      requires Matching(haveIn, base, ids, shortIds, cells) && id in ids
      modifies this`txnAvailable, this`mempoolCount
      ensures Matching(have, base, ids, shortIds, cells[id := Cell(t, true)])
    {
      hide SlotMap, Filled, CountNone, Distinct;
      var s := ids[id];
      MatchedTake(txnAvailable, haveIn, base, ids, shortIds, cells, id, Cell(t, true));
      FilledUpdate(txnAvailable, base, s, t);
      if txnAvailable[s].None? && t.Some? {
        mempoolCount := mempoolCount + 1;
      } else if txnAvailable[s].Some? && t.None? {
        mempoolCount := mempoolCount - 1;
      }
      txnAvailable := txnAvailable[s := t];
      have := haveIn[s := true];
    }

    lemma ReadSlot(have: seq<bool>, base: seq<Option<Tx>>, ids: map<nat, nat>, shortIds: seq<nat>,
            cells: map<nat, Cell>, id: nat)
      requires Matching(have, base, ids, shortIds, cells) && id in ids
      ensures id in cells && ids[id] < |have| == |txnAvailable|
      ensures txnAvailable[ids[id]] == cells[id].slot && have[ids[id]] == cells[id].seen
    {
    }

    /** The count of filled slots equals that of short ids exactly when none is free. */
    lemma CountTells(have: seq<bool>, base: seq<Option<Tx>>, ids: map<nat, nat>, shortIds: seq<nat>,
            cells: map<nat, Cell>)
      requires Matching(have, base, ids, shortIds, cells)
      ensures SlotMap(ids, base, shortIds, |shortIds|)
      ensures mempoolCount == |ids| <==> CellsFull(shortIds, cells)
    {
      CountFull(txnAvailable, have, base, ids, shortIds, cells);
    }

    /** The mempool loop: a second transaction for a short id clears its slot. */
    method MatchPool(offer: Offer, ids: map<nat, nat>, haveIn: seq<bool>, ghost base: seq<Option<Tx>>,
            ghost start: map<nat, Cell>)
      returns (have: seq<bool>, ghost cells: map<nat, Cell>)
      requires Matching(haveIn, base, ids, offer.shortIds, start) && PoolCells(offer, 0, ids, start)
      modifies this`txnAvailable, this`mempoolCount
      ensures Matching(have, base, ids, offer.shortIds, cells)
      ensures PoolCells(offer, PoolStop(offer.sid, offer.pool, offer.shortIds, 0), ids, cells)
    {
      hide PartiallyDownloadedBlock.Matching, CellsFull, SlotMap, PoolCells, PoolCell, PoolStop, PoolFull;
      have, cells := haveIn, start;
      var sid, pool := offer.sid, offer.pool;
      var k := 0;
      while k < |pool|
        invariant 0 <= k <= |pool| && Matching(have, base, ids, offer.shortIds, cells)
        invariant PoolCells(offer, k, ids, cells)
        invariant PoolStop(sid, pool, offer.shortIds, 0) == PoolStop(sid, pool, offer.shortIds, k)
      {
        var id := sid(pool[k].hash);
        PoolCellsStep(offer, k, ids, cells);
        if id in ids {
          ReadSlot(have, base, ids, offer.shortIds, cells, id);
          var t := if have[ids[id]] then None else Some(pool[k].tx);
          have := SetSlot(id, t, have, ids, base, offer.shortIds, cells);
          cells := cells[id := Cell(t, true)];
        }
        CountTells(have, base, ids, offer.shortIds, cells);
        PoolStopStep(offer, k, ids, cells, base);
        k := k + 1;
        if mempoolCount == |ids| {
          return;
        }
      }
    }

    /** The extra loop: a second transaction clears the slot unless it is the same one. */
    method MatchExtra(offer: Offer, ids: map<nat, nat>, haveIn: seq<bool>, ghost base: seq<Option<Tx>>,
            ghost start: map<nat, Cell>)
      returns (have: seq<bool>, ghost cells: map<nat, Cell>)
      requires Matching(haveIn, base, ids, offer.shortIds, start) && ExtraCells(offer, 0, ids, start)
      modifies this`txnAvailable, this`mempoolCount
      ensures Matching(have, base, ids, offer.shortIds, cells)
      ensures ExtraCells(offer, offer.ExtraStop(0), ids, cells)
    {
      hide PartiallyDownloadedBlock.Matching, CellsFull, SlotMap, ExtraCells, Offer.ExtraStop, Offer.AfterExtra, Offer.ExtraFull;
      have, cells := haveIn, start;
      var extra, witnessHash := offer.extra, offer.witnessHash;
      var k := 0;
      while k < |extra|
        invariant 0 <= k <= |extra| && Matching(have, base, ids, offer.shortIds, cells)
        invariant ExtraCells(offer, k, ids, cells)
        invariant offer.ExtraStop(0) == offer.ExtraStop(k)
      {
        var id := offer.sid(extra[k].hash);
        ExtraCellsStep(offer, k, ids, cells);
        if id in ids {
          ReadSlot(have, base, ids, offer.shortIds, cells, id);
          var t := txnAvailable[ids[id]];
          if !have[ids[id]] {
            t := Some(extra[k].tx);
          } else if t.Some? && witnessHash(t.value) != witnessHash(extra[k].tx) {
            t := None;
          }
          have := SetSlot(id, t, have, ids, base, offer.shortIds, cells);
          cells := cells[id := Cell(t, true)];
        }
        CountTells(have, base, ids, offer.shortIds, cells);
        ExtraStopStep(offer, k, ids, cells, base);
        k := k + 1;
        if mempoolCount == |ids| {
          return;
        }
      }
    }

    /** Start from a compact message, the mempool's and the extra transactions. Which buckets of
        the hash table are too full is left open. */
    method InitData(msg: Message, sid: ShortId, witnessHash: Tx -> nat, pool: seq<Entry>, extra: seq<Entry>,
            crowded: nat -> bool)
      returns (status: Status, ghost base: seq<Option<Tx>>)
      requires headerNull && txnAvailable == [] && mempoolCount == 0
      requires |msg.shortIds| + |msg.prefilled| <= MAX_16 + 1
      modifies this
      ensures status == Invalid <==> Rejected(msg)
      ensures status == Failed <==>
                !Rejected(msg) && !(Distinct(msg.shortIds) && forall i :: 0 <= i < |msg.shortIds| ==> !crowded(i))
      ensures status.Invalid? || status.Failed? || status.Ok?
      ensures var offer := Offer(sid, witnessHash, pool, extra, msg.shortIds);
        status == Ok ==> Layout(base, msg) && Reconstructed(txnAvailable, base, offer)
      ensures status == Ok ==> mempoolCount == Filled(txnAvailable, base) && prefilledCount == |msg.prefilled| && !headerNull
    {
      hide SlotMap, Filled, CountNone, Matched, AllPlaced, Distinct, Holds, Reconstructed, PoolCells, ExtraCells;
      base := [];
      if msg.headerNull || (|msg.shortIds| == 0 && |msg.prefilled| == 0) {
        return Invalid, base;
      }
      if |msg.shortIds| + |msg.prefilled| > MAX_COUNT {
        return Invalid, base;
      }
      headerNull := false;
      txnAvailable := Blank(|msg.shortIds| + |msg.prefilled|);
      var placed := PlacePrefilled(msg);
      if !placed {
        return Invalid, base;
      }
      prefilledCount := |msg.prefilled|;
      var mapped, ids := MapShortIds(msg.shortIds, crowded);
      if !mapped {
        return Failed, base;
      }
      base := txnAvailable;
      var offer := Offer(sid, witnessHash, pool, extra, msg.shortIds);
      var have := seq(|txnAvailable|, _ => false);
      ghost var cells := map id | id in ids :: Cell(None, false);
      MatchedStart(base, ids, msg.shortIds);
      CellsStart(offer, ids);
      FilledSame(base);
      have, cells := MatchPool(offer, ids, have, base, cells);
      CellsBetween(offer, ids, cells);
      have, cells := MatchExtra(offer, ids, have, base, cells);
      MatchedEnd(txnAvailable, have, base, ids, cells, offer);
      status := Ok;
    }

    /** Move the slots out, putting missing transactions into the free ones; stops when they run
        out, with the slots before that moved out. */
    method FillSlots(missing: seq<Tx>) returns (ok: bool, used: nat, vtx: seq<Tx>)
      modifies this`txnAvailable
      ensures ok <==> old(CountNone(txnAvailable)) <= |missing|
      ensures ok ==> used == old(CountNone(txnAvailable)) && vtx == Merged(old(txnAvailable), missing)
      ensures !ok ==> var s := FreeSlot(old(txnAvailable), |missing|); txnAvailable == Blank(s) + old(txnAvailable)[s..]
    {
      hide CountNone, FreeSlot, Merged, FillPart, Blank;
      vtx, used := [], 0;
      MovedNone(txnAvailable);
      ghost var avail := txnAvailable;
      FillStart(avail, missing);
      for i := 0 to |txnAvailable|
        invariant txnAvailable == Blank(i) + avail[i..] && |txnAvailable| == |avail|
        invariant 0 <= used <= |missing| && FillPart(vtx, avail, missing, i, used)
      {
        Moved(avail, i);
        FillNext(vtx, avail, missing, i, used);
        if txnAvailable[i].None? {
          if |missing| <= used {
            return false, used, vtx;
          }
          vtx := vtx + [missing[used]];
          used := used + 1;
        } else {
          vtx := vtx + [txnAvailable[i].value];
        }
        txnAvailable := txnAvailable[i := None];
      }
      FillEnd(vtx, avail, missing, used);
      ok := true;
    }

    /** Build the block, given the verdict of the block check. Except when too few transactions are
        supplied, the slots are dropped so that this cannot be done twice. */
    method FillBlock(missing: seq<Tx>, check: Status) returns (status: Status, vtx: seq<Tx>)
      requires !headerNull
      modifies this`headerNull, this`txnAvailable
      ensures var need := old(CountNone(txnAvailable));
              if |missing| < need then
                var s := FreeSlot(old(txnAvailable), |missing|);
                status == Invalid && !headerNull && txnAvailable == Blank(s) + old(txnAvailable)[s..]
              else
                && headerNull && txnAvailable == []
                && vtx == Merged(old(txnAvailable), missing)
                && status == if |missing| == need then check else Invalid
    {
      hide CountNone, FreeSlot, Merged, Blank;
      var ok, used;
      ok, used, vtx := FillSlots(missing);
      if !ok {
        return Invalid, vtx;
      }
      headerNull, txnAvailable := true, [];
      if |missing| != used {
        return Invalid, vtx;
      }
      status := check;
    }
  }

  /** The cells after k mempool transactions. */
  ghost predicate PoolCells(offer: Offer, k: nat, ids: map<nat, nat>, cells: map<nat, Cell>)
    requires k <= |offer.pool|
  {
    cells.Keys == ids.Keys && forall id :: id in ids ==> cells[id] == PoolCell(offer.sid, offer.pool, k, id)
  }

  lemma PoolCellsStep(offer: Offer, k: nat, ids: map<nat, nat>, cells: map<nat, Cell>)
    requires k < |offer.pool| && PoolCells(offer, k, ids, cells)
    ensures var e := offer.pool[k];
      var me := offer.sid(e.hash);
      PoolCells(offer, k + 1, ids, if me in ids then cells[me := FromPool(cells[me], e.tx)] else cells)
  {
  }

  /** The loop ends when all cells are full, and not before. */
  lemma PoolStopStep(offer: Offer, k: nat, ids: map<nat, nat>, cells: map<nat, Cell>, base: seq<Option<Tx>>)
    requires k < |offer.pool| && SlotMap(ids, base, offer.shortIds, |offer.shortIds|)
    requires PoolCells(offer, k + 1, ids, cells)
    ensures PoolStop(offer.sid, offer.pool, offer.shortIds, k)
        == if CellsFull(offer.shortIds, cells) then k + 1 else PoolStop(offer.sid, offer.pool, offer.shortIds, k + 1)
  {
    hide PoolCell, FreeSlot, CountNone;
  }

  ghost predicate ExtraCells(offer: Offer, k: nat, ids: map<nat, nat>, cells: map<nat, Cell>)
    requires k <= |offer.extra|
  {
    cells.Keys == ids.Keys && forall id :: id in ids ==> cells[id] == offer.AfterExtra(k, id)
  }

  lemma ExtraCellsStep(offer: Offer, k: nat, ids: map<nat, nat>, cells: map<nat, Cell>)
    requires k < |offer.extra| && ExtraCells(offer, k, ids, cells)
    ensures var e := offer.extra[k];
      var me := offer.sid(e.hash);
      ExtraCells(offer, k + 1, ids, if me in ids then cells[me := FromExtra(cells[me], e.tx, offer.witnessHash)] else cells)
  {
    hide Offer.AfterPool;
  }

  lemma ExtraStopStep(offer: Offer, k: nat, ids: map<nat, nat>, cells: map<nat, Cell>, base: seq<Option<Tx>>)
    requires k < |offer.extra| && SlotMap(ids, base, offer.shortIds, |offer.shortIds|)
    requires ExtraCells(offer, k + 1, ids, cells)
    ensures offer.ExtraStop(k) == if CellsFull(offer.shortIds, cells) then k + 1 else offer.ExtraStop(k + 1)
  {
    hide Offer.AfterExtra, FreeSlot, CountNone;
  }

  lemma CellsStart(offer: Offer, ids: map<nat, nat>)
    ensures PoolCells(offer, 0, ids, map id | id in ids :: Cell(None, false))
  {
  }

  /** The extra loop starts where the mempool loop ended. */
  lemma CellsBetween(offer: Offer, ids: map<nat, nat>, cells: map<nat, Cell>)
    requires PoolCells(offer, PoolStop(offer.sid, offer.pool, offer.shortIds, 0), ids, cells)
    ensures ExtraCells(offer, 0, ids, cells)
  {
  }

  // ----- Filling -----

  /** The filled slots with the missing transactions put into the free ones, in order. */
  function Merged(avail: seq<Option<Tx>>, missing: seq<Tx>): seq<Tx>
    requires CountNone(avail) <= |missing|
  {
    if avail == [] then []
    else if avail[0].Some? then [avail[0].value] + Merged(avail[1..], missing)
    else [missing[0]] + Merged(avail[1..], missing[1..])
  }

  /** After i slots, used of the missing transactions are used up and the rest is still to come. */
  ghost predicate FillPart(vtx: seq<Tx>, avail: seq<Option<Tx>>, missing: seq<Tx>, i: nat, used: nat) {
    && i <= |avail| && used <= |missing|
    && CountNone(avail) == used + CountNone(avail[i..])
    && (CountNone(avail) <= |missing| ==> Merged(avail, missing) == vtx + Merged(avail[i..], missing[used..]))
    && (used < CountNone(avail) ==> FreeSlot(avail, used) >= i)
    && (used < CountNone(avail) ==> forall s :: i <= s < FreeSlot(avail, used) ==> avail[s].Some?)
  }

  lemma FillStart(avail: seq<Option<Tx>>, missing: seq<Tx>)
    ensures FillPart([], avail, missing, 0, 0)
  {
    hide FreeSlot, CountNone, Merged;
    assert avail[0..] == avail && missing[0..] == missing;
    if CountNone(avail) > 0 {
      FirstFree(avail);
    }
  }

  /** Moving slot i out. */
  lemma Moved(avail: seq<Option<Tx>>, i: nat)
    requires i < |avail|
    ensures |Blank(i) + avail[i..]| == |avail| && (Blank(i) + avail[i..])[i] == avail[i]
    ensures (Blank(i) + avail[i..])[i := None] == Blank(i + 1) + avail[i + 1..]
  {
  }

  lemma MovedNone(avail: seq<Option<Tx>>)
    ensures Blank(0) + avail[0..] == avail && |Blank(|avail|) + avail[|avail|..]| == |avail|
  {
  }

  lemma CountStep(avail: seq<Option<Tx>>, i: nat)
    requires i < |avail|
    ensures CountNone(avail[i..]) == (if avail[i].None? then 1 else 0) + CountNone(avail[i + 1..])
  {
    assert avail[i..][1..] == avail[i + 1..];
  }

  lemma MergedStep(avail: seq<Option<Tx>>, missing: seq<Tx>, i: nat, used: nat)
    requires i < |avail| && used <= |missing| && CountNone(avail[i..]) <= |missing| - used
    ensures avail[i].Some? ==> CountNone(avail[i + 1..]) <= |missing| - used
    ensures avail[i].Some? ==>
              Merged(avail[i..], missing[used..]) == [avail[i].value] + Merged(avail[i + 1..], missing[used..])
    ensures avail[i].None? ==> used < |missing| && CountNone(avail[i + 1..]) <= |missing| - used - 1
    ensures avail[i].None? ==>
              Merged(avail[i..], missing[used..]) == [missing[used]] + Merged(avail[i + 1..], missing[used + 1..])
  {
    CountStep(avail, i);
    hide CountNone;
    assert avail[i..][1..] == avail[i + 1..];
    if avail[i].None? {
      assert missing[used..][1..] == missing[used + 1..];
    }
  }

  lemma FillNext(vtx: seq<Tx>, avail: seq<Option<Tx>>, missing: seq<Tx>, i: nat, used: nat)
    requires i < |avail| && FillPart(vtx, avail, missing, i, used)
    ensures avail[i].Some? ==> FillPart(vtx + [avail[i].value], avail, missing, i + 1, used)
    ensures avail[i].None? ==> used < CountNone(avail) && FreeSlot(avail, used) == i
    ensures avail[i].None? && used < |missing| ==> FillPart(vtx + [missing[used]], avail, missing, i + 1, used + 1)
  {
    hide FreeSlot, CountNone, Merged;
    CountStep(avail, i);
    if CountNone(avail) <= |missing| {
      MergedStep(avail, missing, i, used);
    }
    if avail[i].None? && used + 1 < CountNone(avail) {
      FreeSlotNext(avail, used + 1);
    }
  }

  lemma FillEnd(vtx: seq<Tx>, avail: seq<Option<Tx>>, missing: seq<Tx>, used: nat)
    requires FillPart(vtx, avail, missing, |avail|, used)
    ensures CountNone(avail) == used && vtx == Merged(avail, missing)
  {
    hide FreeSlot;
    assert avail[|avail|..] == [];
    assert CountNone(avail) == used;
  }

  // ----- From block to block -----

  /** What is asked for: the block's transactions at the free slots, in order. */
  function Wanted(avail: seq<Option<Tx>>, block: seq<Tx>): (r: seq<Tx>)
    requires |avail| == |block|
    ensures |r| == CountNone(avail)
  {
    if avail == [] then []
    else (if avail[0].None? then [block[0]] else []) + Wanted(avail[1..], block[1..])
  }

  /** Slots that hold nothing but the block's own transactions. */
  ghost predicate Agrees(avail: seq<Option<Tx>>, block: seq<Tx>) {
    |avail| == |block| && forall s :: 0 <= s < |avail| && avail[s].Some? ==> avail[s].value == block[s]
  }

  /** Own transactions in the slots and the wanted ones supplied: the block comes back. */
  lemma {:induction false} Rebuilt(avail: seq<Option<Tx>>, block: seq<Tx>)
    requires Agrees(avail, block)
    ensures Merged(avail, Wanted(avail, block)) == block
  {
    if avail != [] {
      Rebuilt(avail[1..], block[1..]);
      var w := Wanted(avail[1..], block[1..]);
      if avail[0].None? {
        assert Wanted(avail, block)[1..] == w;
      } else {
        assert Wanted(avail, block) == w;
      }
      assert block == [block[0]] + block[1..];
    }
  }

  /** The message for a block: its first transaction prefilled, short ids for the others. */
  method CompactMessage(block: seq<Tx>, hashOf: Tx -> nat, sid: ShortId) returns (msg: Message)
    requires |block| > 0
    ensures IsMessageFor(msg, block, hashOf, sid)
  {
    var ids: seq<nat> := [];
    for i := 1 to |block|
      invariant |ids| == i - 1
      invariant forall k :: 0 <= k < i - 1 ==> ids[k] == sid(hashOf(block[k + 1]))
    {
      ids := ids + [sid(hashOf(block[i]))];
    }
    msg := Message(false, ids, [Prefilled(0, Some(block[0]))]);
  }

  ghost predicate IsMessageFor(msg: Message, block: seq<Tx>, hashOf: Tx -> nat, sid: ShortId) {
    && |block| > 0 && !msg.headerNull
    && msg.prefilled == [Prefilled(0, Some(block[0]))]
    && |msg.shortIds| == |block| - 1
    && forall k :: 0 <= k < |block| - 1 ==> msg.shortIds[k] == sid(hashOf(block[k + 1]))
  }

  /** No transaction on offer shares a short id with a different transaction of the block. */
  ghost predicate NoCollision(block: seq<Tx>, hashOf: Tx -> nat, sid: ShortId, entries: seq<Entry>) {
    forall k, i :: 0 <= k < |entries| && 0 <= i < |block| && sid(entries[k].hash) == sid(hashOf(block[i])) ==>
                     entries[k].tx == block[i]
  }

  /** In such a message short id i belongs to slot i + 1. */
  lemma {:induction false} MessageSlots(base: seq<Option<Tx>>, msg: Message, block: seq<Tx>, hashOf: Tx -> nat,
          sid: ShortId, i: nat)
    requires IsMessageFor(msg, block, hashOf, sid) && Layout(base, msg) && i < |msg.shortIds|
    ensures FreeSlot(base, i) == i + 1
  {
    hide CountNone, FreeSlot, Holds;
    OnlyFirst(base, msg, block);
    if i > 0 {
      MessageSlots(base, msg, block, hashOf, sid, i - 1);
    }
    FreeSlotFrom(base, i);
    assert base[i + 1].None?;
  }

  lemma FirstPlace(pre: seq<Prefilled>)
    requires |pre| > 0 && pre[0].index == 0
    ensures PlaceOf(pre, 0) == 0
  {
    assert LastIndex(pre, 0) == -1;
  }

  lemma OnlyFirst(base: seq<Option<Tx>>, msg: Message, block: seq<Tx>)
    requires |block| > 0 && msg.prefilled == [Prefilled(0, Some(block[0]))] && |msg.shortIds| == |block| - 1 && Layout(base, msg)
    ensures base[0] == Some(block[0]) && forall s :: 0 < s < |base| ==> base[s].None?
  {
    FirstPlace(msg.prefilled);
  }

  /** A message made for a block is never rejected while the block is within the size limit. */
  lemma MessageAccepted(msg: Message, block: seq<Tx>, hashOf: Tx -> nat, sid: ShortId)
    requires IsMessageFor(msg, block, hashOf, sid) && |block| <= MAX_COUNT
    ensures !Rejected(msg)
  {
    FirstPlace(msg.prefilled);
  }

  /** From message to block: without collisions the reconstruction agrees with the block, so that
      supplying what is wanted rebuilds it. */
  lemma RelayRebuilds(avail: seq<Option<Tx>>, base: seq<Option<Tx>>, msg: Message, block: seq<Tx>,
          hashOf: Tx -> nat, offer: Offer)
    requires IsMessageFor(msg, block, hashOf, offer.sid) && Layout(base, msg) && offer.shortIds == msg.shortIds
    requires Reconstructed(avail, base, offer) && NoCollision(block, hashOf, offer.sid, offer.pool + offer.extra)
    ensures Agrees(avail, block) && Merged(avail, Wanted(avail, block)) == block
  {
    hide CountNone, FreeSlot, Merged, Wanted, Holds, Offer.Final;
    OnlyFirst(base, msg, block);
    forall s | 0 < s < |avail| && avail[s].Some? ensures avail[s].value == block[s] {
      MessageSlots(base, msg, block, hashOf, offer.sid, s - 1);
      FinalOffered(offer, s - 1);
    }
    Rebuilt(avail, block);
  }

  // ----- The list of wanted indexes -----

  const TWO_64: nat := 0x1_0000_0000_0000_0000

  ghost predicate SixteenBit(s: seq<nat>) {
    forall i :: 0 <= i < |s| ==> s[i] <= MAX_16
  }

  /** What is written for index i: its distance from the index after the previous, in 64 bits. */
  function Difference(indexes: seq<nat>, i: nat): nat
    requires i < |indexes|
  {
    (indexes[i] - (if i == 0 then 0 else indexes[i - 1] + 1)) % TWO_64
  }

  function Differences(indexes: seq<nat>): seq<nat> {
    seq(|indexes|, i requires 0 <= i < |indexes| => Difference(indexes, i))
  }

  method WriteIndexes(indexes: seq<nat>) returns (diffs: seq<nat>)
    requires SixteenBit(indexes)
    ensures diffs == Differences(indexes)
  {
    diffs := [];
    for i := 0 to |indexes|
      invariant |diffs| == i && forall k :: 0 <= k < i ==> diffs[k] == Difference(indexes, k)
    {
      diffs := diffs + [(indexes[i] - (if i == 0 then 0 else indexes[i - 1] + 1)) % TWO_64];
    }
  }

  function Prepend(head: seq<nat>, rest: Option<seq<nat>>): Option<seq<nat>> {
    if rest.Some? then Some(head + rest.value) else None
  }

  /** Reading back from an offset: values past 16 bits, alone or added up, are refused; the running
      offset is kept in 16 bits and wraps. */
  function Reading(diffs: seq<nat>, offset: nat): Option<seq<nat>> {
    if diffs == [] then Some([])
    else if diffs[0] > MAX_16 || diffs[0] + offset > MAX_16 then None
    else Prepend([diffs[0] + offset], Reading(diffs[1..], (diffs[0] + offset + 1) % (MAX_16 + 1)))
  }

  lemma {:induction false} OneTooLarge(diffs: seq<nat>, offset: nat, i: nat)
    requires i < |diffs| && diffs[i] > MAX_16
    ensures Reading(diffs, offset) == None
  {
    if i > 0 && diffs[0] <= MAX_16 && diffs[0] + offset <= MAX_16 {
      OneTooLarge(diffs[1..], (diffs[0] + offset + 1) % (MAX_16 + 1), i - 1);
    }
  }

  method ReadIndexes(diffs: seq<nat>) returns (r: Option<seq<nat>>)
    ensures r == Reading(diffs, 0)
  {
    hide Reading;
    for i := 0 to |diffs|
      invariant forall k :: 0 <= k < i ==> diffs[k] <= MAX_16
    {
      if diffs[i] > MAX_16 {
        OneTooLarge(diffs, 0, i);
        return None;
      }
    }
    var indexes: seq<nat> := diffs;
    var offset: nat := 0;
    ReadNone(diffs);
    for j := 0 to |indexes|
      invariant |indexes| == |diffs| && indexes[j..] == diffs[j..]
      invariant Reading(diffs, 0) == Prepend(indexes[..j], Reading(diffs[j..], offset))
    {
      assert indexes[j] == diffs[j];
      ReadOne(diffs, indexes[..j], j, offset);
      if indexes[j] + offset > MAX_16 {
        return None;
      }
      ghost var before := indexes;
      indexes := indexes[j := indexes[j] + offset];
      assert indexes[..j + 1] == before[..j] + [diffs[j] + offset];
      assert indexes[j + 1..] == before[j..][1..];
      offset := (indexes[j] + 1) % (MAX_16 + 1);
    }
    assert indexes[..|indexes|] == indexes;
    ReadEnd(diffs, indexes, offset);
    r := Some(indexes);
  }

  lemma ReadNone(diffs: seq<nat>)
    ensures Reading(diffs, 0) == Prepend([], Reading(diffs[0..], 0))
  {
    assert diffs[0..] == diffs;
    var r := Reading(diffs, 0);
    assert r.Some? ==> [] + r.value == r.value;
  }

  lemma ReadOne(diffs: seq<nat>, head: seq<nat>, j: nat, offset: nat)
    requires j < |diffs| && diffs[j] <= MAX_16
    ensures Prepend(head, Reading(diffs[j..], offset)) ==
            if diffs[j] + offset > MAX_16 then None
            else Prepend(head + [diffs[j] + offset], Reading(diffs[j + 1..], (diffs[j] + offset + 1) % (MAX_16 + 1)))
  {
    ReadStep(diffs, j, offset);
    var rest := Reading(diffs[j + 1..], (diffs[j] + offset + 1) % (MAX_16 + 1));
    if rest.Some? {
      assert head + ([diffs[j] + offset] + rest.value) == head + [diffs[j] + offset] + rest.value;
    }
  }

  lemma ReadEnd(diffs: seq<nat>, s: seq<nat>, offset: nat)
    ensures Prepend(s, Reading(diffs[|diffs|..], offset)) == Some(s)
  {
    assert diffs[|diffs|..] == [] && Reading([], offset) == Some([]);
    assert s + [] == s;
  }

  /** Strictly increasing from entry k on, entry k also against the one before it. */
  ghost predicate IncreasingFrom(s: seq<nat>, k: nat) {
    forall i :: 0 < i < |s| && i >= k ==> s[i - 1] < s[i]
  }

  lemma {:induction false} ReadsBackFrom(indexes: seq<nat>, k: nat)
    requires SixteenBit(indexes) && k <= |indexes|
    ensures var offset := if k == 0 then 0 else (indexes[k - 1] + 1) % (MAX_16 + 1);
            Reading(Differences(indexes)[k..], offset) == if IncreasingFrom(indexes, k) then Some(indexes[k..]) else None
    decreases |indexes| - k
  {
    hide Difference, Reading, IncreasingFrom;
    var diffs := Differences(indexes);
    var offset := if k == 0 then 0 else (indexes[k - 1] + 1) % (MAX_16 + 1);
    FromStep(indexes, k);
    if k < |indexes| {
      ReadsBackFrom(indexes, k + 1);
      OneDifference(indexes, k);
      ReadStep(diffs, k, offset);
      assert indexes[k..] == [indexes[k]] + indexes[k + 1..];
    } else {
      ReadEnd(diffs, [], offset);
    }
  }

  lemma FromStep(s: seq<nat>, k: nat)
    requires k <= |s|
    ensures k < |s| ==> (IncreasingFrom(s, k) <==> (k == 0 || s[k - 1] < s[k]) && IncreasingFrom(s, k + 1))
    ensures k == |s| ==> IncreasingFrom(s, k)
  {
  }

  lemma ReadStep(diffs: seq<nat>, k: nat, offset: nat)
    requires k < |diffs|
    ensures Reading(diffs[k..], offset) ==
            if diffs[k] > MAX_16 || diffs[k] + offset > MAX_16 then None
            else Prepend([diffs[k] + offset], Reading(diffs[k + 1..], (diffs[k] + offset + 1) % (MAX_16 + 1)))
  {
    assert diffs[k..][1..] == diffs[k + 1..];
  }

  lemma OneDifference(indexes: seq<nat>, k: nat)
    requires SixteenBit(indexes) && k < |indexes|
    ensures k == 0 ==> Difference(indexes, k) == indexes[k]
    ensures k > 0 && indexes[k - 1] < indexes[k] ==> Difference(indexes, k) == indexes[k] - indexes[k - 1] - 1
    ensures k > 0 && indexes[k - 1] >= indexes[k] ==> Difference(indexes, k) > MAX_16
  {
  }

  /** A written list reads back as itself exactly when it is strictly increasing; any other list is
      refused. */
  lemma IndexesRoundTrip(indexes: seq<nat>)
    requires SixteenBit(indexes)
    ensures Reading(Differences(indexes), 0) == if IncreasingFrom(indexes, 0) then Some(indexes) else None
  {
    hide Reading, Differences;
    ReadsBackFrom(indexes, 0);
    assert Differences(indexes)[0..] == Differences(indexes) && indexes[0..] == indexes;
  }

  /** The next free slot is the first free one from the slot after the previous. */
  lemma FreeSlotFrom(avail: seq<Option<Tx>>, i: nat)
    requires i < CountNone(avail)
    ensures var from := if i == 0 then 0 else FreeSlot(avail, i - 1) + 1;
            from <= FreeSlot(avail, i) && forall s :: from <= s < FreeSlot(avail, i) ==> avail[s].Some?
  {
    hide CountNone, FreeSlot;
    if i == 0 {
      FirstFree(avail);
    } else {
      FreeSlotNext(avail, i);
    }
  }

  lemma KeysUpdate(ids: map<nat, nat>, a: nat, b: nat)
    ensures ids[a := b].Keys == ids.Keys + {a}
  {
  }

  lemma MapNone(base: seq<Option<Tx>>, shortIds: seq<nat>)
    ensures MapOk(map[], base, shortIds, 0)
  {
    var none: map<nat, nat> := map[];
    assert none.Keys == {};
  }

  ghost predicate MapOk(ids: map<nat, nat>, base: seq<Option<Tx>>, shortIds: seq<nat>, i: nat) {
    SlotMap(ids, base, shortIds, i) && Keyed(ids.Keys, shortIds, i)
  }

  lemma MapAll(ids: map<nat, nat>, base: seq<Option<Tx>>, shortIds: seq<nat>)
    requires MapOk(ids, base, shortIds, |shortIds|)
    ensures SlotMap(ids, base, shortIds, |shortIds|)
    ensures |ids| == |shortIds| <==> Distinct(shortIds)
  {
    KeyedAll(ids.Keys, shortIds);
    assert |ids.Keys| == |ids|;
  }

  lemma MapOneMore(ids: map<nat, nat>, base: seq<Option<Tx>>, shortIds: seq<nat>, i: nat)
    requires i < |shortIds| == CountNone(base) && MapOk(ids, base, shortIds, i)
    ensures MapOk(ids[shortIds[i] := FreeSlot(base, i)], base, shortIds, i + 1)
  {
    hide SlotMap, Keyed, FreeSlot, CountNone;
    SlotMapOneMore(ids, base, shortIds, i);
    KeyedOneMore(ids.Keys, shortIds, i);
    KeysUpdate(ids, shortIds[i], FreeSlot(base, i));
  }

  lemma SlotMapOneMore(ids: map<nat, nat>, base: seq<Option<Tx>>, shortIds: seq<nat>, i: nat)
    requires i < |shortIds| == CountNone(base) && SlotMap(ids, base, shortIds, i)
    ensures SlotMap(ids[shortIds[i] := FreeSlot(base, i)], base, shortIds, i + 1)
  {
    hide CountNone, FreeSlot;
    var id := shortIds[i];
    var next := ids[id := FreeSlot(base, i)];
    forall a | a in next ensures exists k :: 0 <= k < i + 1 && shortIds[k] == a && next[a] == FreeSlot(base, k) {
      if a == id {
        assert shortIds[i] == a && next[a] == FreeSlot(base, i);
      } else {
        var k :| 0 <= k < i && shortIds[k] == a && ids[a] == FreeSlot(base, k);
      }
    }
  }

  /** The keys are the first i values, as many as those when the values are all different. */
  ghost predicate Keyed(keys: set<nat>, s: seq<nat>, i: nat) {
    && i <= |s|
    && (forall k :: 0 <= k < i ==> s[k] in keys)
    && (forall a :: a in keys ==> exists k :: 0 <= k < i && s[k] == a)
    && |keys| <= i
    && (|keys| == i <==> forall j, k :: 0 <= j < k < i ==> s[j] != s[k])
  }

  lemma KeyedOneMore(keys: set<nat>, s: seq<nat>, i: nat)
    requires i < |s| && Keyed(keys, s, i)
    ensures Keyed(keys + {s[i]}, s, i + 1)
  {
    var next := keys + {s[i]};
    if s[i] in keys {
      assert next == keys;
      var k :| 0 <= k < i && s[k] == s[i];
    } else {
      assert |next| == |keys| + 1;
    }
    forall a | a in next ensures exists k :: 0 <= k < i + 1 && s[k] == a {
      if a != s[i] {
        var k :| 0 <= k < i && s[k] == a;
      }
    }
  }

  lemma KeyedAll(keys: set<nat>, s: seq<nat>)
    requires Keyed(keys, s, |s|)
    ensures |keys| == |s| <==> Distinct(s)
  {
  }
}
