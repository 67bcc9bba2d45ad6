/**
 Compact block reconstruction, BIP 152 (src/blockencodings.h, src/blockencodings.cpp): placing the
 prefilled transactions, finding the slot of every short id, and filling slots.
 */
module CompactBlock {
  import opened Wrappers

  /** A reference to a transaction; hashes and short ids are functions of it. */
  type Tx = nat

  datatype Status = Ok | Invalid | Failed | CheckBlockFailed

  /** Offset from the previous prefilled transaction; None stands for a null transaction. */
  datatype Prefilled = Prefilled(index: nat, tx: Option<Tx>)

  datatype Message = Message(headerNull: bool, shortIds: seq<nat>, prefilled: seq<Prefilled>)

  const MAX_16: nat := 65535

  /** The weight limit of a block over the least weight a serialized transaction can have. */
  const MAX_COUNT: nat := 6000000 / 40

  // ----- Prefilled transactions -----

  /** The slot of the last of the first n prefilled transactions; -1 when there is none. */
  function LastIndex(pre: seq<Prefilled>, n: nat): (r: int)
    requires n <= |pre|
    ensures r >= n - 1
  {
    if n == 0 then -1 else LastIndex(pre, n - 1) + pre[n - 1].index + 1
  }

  lemma {:induction false} Increasing(pre: seq<Prefilled>, m: nat, n: nat)
    requires m < n <= |pre|
    ensures LastIndex(pre, m) < LastIndex(pre, n)
    decreases n
  {
    if m < n - 1 {
      Increasing(pre, m, n - 1);
    }
  }

  /** The slot of a prefilled transaction. */
  function PlaceOf(pre: seq<Prefilled>, k: nat): (r: nat)
    requires k < |pre|
  {
    LastIndex(pre, k + 1)
  }

  /** The n-th prefilled transaction is there, and its slot is not past what is known so far. */
  predicate PlaceOk(pre: seq<Prefilled>, shorts: nat, n: nat)
    requires n < |pre|
  {
    pre[n].tx.Some? && PlaceOf(pre, n) <= MAX_16 && PlaceOf(pre, n) <= shorts + n
  }

  predicate AllPlaced(pre: seq<Prefilled>, shorts: nat) {
    forall n :: 0 <= n < |pre| ==> PlaceOk(pre, shorts, n)
  }

  /** The first n prefilled transactions sit in their slots and nothing else does. */
  ghost predicate Holds(avail: seq<Option<Tx>>, pre: seq<Prefilled>, n: nat)
    requires n <= |pre|
  {
    && (forall k :: 0 <= k < n ==> PlaceOf(pre, k) < |avail| && avail[PlaceOf(pre, k)] == pre[k].tx)
    && (forall s :: 0 <= s < |avail| && avail[s].Some? ==> exists k :: 0 <= k < n && PlaceOf(pre, k) == s)
  }

  function CountNone(avail: seq<Option<Tx>>): nat {
    if avail == [] then 0 else (if avail[0].None? then 1 else 0) + CountNone(avail[1..])
  }

  lemma {:induction false} CountNoneUpdate(avail: seq<Option<Tx>>, s: nat, t: Option<Tx>)
    requires s < |avail| && avail[s].None? && t.Some?
    ensures CountNone(avail[s := t]) + 1 == CountNone(avail)
  {
    var d := avail[s := t];
    if s == 0 {
      assert d[1..] == avail[1..];
    } else {
      assert d[1..] == avail[1..][s - 1 := t];
      CountNoneUpdate(avail[1..], s - 1, t);
    }
  }

  function Blank(n: nat): seq<Option<Tx>> {
    seq(n, _ => None)
  }

  lemma {:induction false} CountNoneAll(n: nat)
    ensures CountNone(Blank(n)) == n
  {
    if n > 0 {
      CountNoneAll(n - 1);
      assert Blank(n)[1..] == Blank(n - 1);
    }
  }

  /** Placing the next prefilled transaction: its slot is free and in range. */
  lemma PlaceNext(avail: seq<Option<Tx>>, pre: seq<Prefilled>, shorts: nat, n: nat)
    requires n < |pre| && PlaceOk(pre, shorts, n) && Holds(avail, pre, n) && |avail| == shorts + |pre|
    ensures PlaceOf(pre, n) < |avail| && avail[PlaceOf(pre, n)].None?
    ensures Holds(avail[PlaceOf(pre, n) := pre[n].tx], pre, n + 1)
    ensures CountNone(avail[PlaceOf(pre, n) := pre[n].tx]) + 1 == CountNone(avail)
  {
    var s := PlaceOf(pre, n);
    forall k | 0 <= k < n ensures PlaceOf(pre, k) < s {
      Increasing(pre, k + 1, n + 1);
    }
    hide PlaceOf;
    var d := avail[s := pre[n].tx];
    forall q | 0 <= q < |d| && d[q].Some? ensures exists k :: 0 <= k < n + 1 && PlaceOf(pre, k) == q {
      if q == s {
        assert PlaceOf(pre, n) == q;
      } else {
        var k :| 0 <= k < n && PlaceOf(pre, k) == q;
      }
    }
    CountNoneUpdate(avail, s, pre[n].tx);
  }

  // ----- The slots of short ids -----

  /** The first free slot from p on, or the end. */
  function NextFree(avail: seq<Option<Tx>>, p: nat): (q: nat)
    requires p <= |avail|
    ensures p <= q <= |avail| && (q < |avail| ==> avail[q].None?)
    ensures forall s :: p <= s < q ==> avail[s].Some?
    decreases |avail| - p
  {
    if p == |avail| || avail[p].None? then p else NextFree(avail, p + 1)
  }

  lemma {:induction false} CountFrom(avail: seq<Option<Tx>>, p: nat)
    requires p <= |avail|
    ensures var q := NextFree(avail, p);
            if q == |avail| then CountNone(avail[p..]) == 0 else CountNone(avail[p..]) == CountNone(avail[q + 1..]) + 1
    decreases |avail| - p
  {
    if p < |avail| {
      assert avail[p..][1..] == avail[p + 1..];
      if avail[p].Some? {
        CountFrom(avail, p + 1);
      }
    }
  }

  /** The i-th free slot, for i below the number of free slots. */
  function FreeSlot(avail: seq<Option<Tx>>, i: nat): (q: nat)
    requires i < CountNone(avail)
    ensures q < |avail| && avail[q].None? && CountNone(avail[q + 1..]) == CountNone(avail) - i - 1
    ensures i <= q
  {
    if i == 0 then
      assert avail[0..] == avail;
      CountFrom(avail, 0);
      NextFree(avail, 0)
    else
      var p := FreeSlot(avail, i - 1) + 1;
      CountFrom(avail, p);
      NextFree(avail, p)
  }

  /** Free slots come in order and none is passed over. */
  lemma FreeSlotNext(avail: seq<Option<Tx>>, i: nat)
    requires 0 < i < CountNone(avail)
    ensures FreeSlot(avail, i - 1) < FreeSlot(avail, i)
    ensures forall s :: FreeSlot(avail, i - 1) < s < FreeSlot(avail, i) ==> avail[s].Some?
  {
    hide CountNone;
  }

  lemma FirstFree(avail: seq<Option<Tx>>)
    requires 0 < CountNone(avail)
    ensures forall s :: 0 <= s < FreeSlot(avail, 0) ==> avail[s].Some?
  {
    hide CountNone;
  }

  lemma {:induction false} FreeSlotOrder(avail: seq<Option<Tx>>, i: nat, j: nat)
    requires i < j < CountNone(avail)
    ensures FreeSlot(avail, i) < FreeSlot(avail, j)
    decreases j
  {
    hide CountNone, FreeSlot;
    FreeSlotNext(avail, j);
    if i < j - 1 {
      FreeSlotOrder(avail, i, j - 1);
    }
  }

  lemma {:induction false} EveryFreeSlot(avail: seq<Option<Tx>>, s: nat, i: nat)
    requires s < |avail| && avail[s].None? && i < CountNone(avail)
    ensures s > FreeSlot(avail, i) || exists k :: 0 <= k <= i && FreeSlot(avail, k) == s
  {
    hide CountNone, FreeSlot;
    if i > 0 {
      EveryFreeSlot(avail, s, i - 1);
      FreeSlotNext(avail, i);
    } else {
      FirstFree(avail);
    }
    if s == FreeSlot(avail, i) {
      assert FreeSlot(avail, i) == s;
    }
  }

  /** Every free slot is the slot of a short id. */
  lemma SlotOfSome(avail: seq<Option<Tx>>, s: nat)
    requires s < |avail| && avail[s].None?
    ensures exists k :: 0 <= k < CountNone(avail) && FreeSlot(avail, k) == s
  {
    hide CountNone, FreeSlot;
    var n := CountNone(avail);
    CountPositive(avail, s);
    EveryFreeSlot(avail, s, n - 1);
    var q := FreeSlot(avail, n - 1);
    if s > q {
      CountPositive(avail[q + 1..], s - q - 1);
    }
  }

  lemma {:induction false} CountPositive(avail: seq<Option<Tx>>, s: nat)
    requires s < |avail| && avail[s].None?
    ensures CountNone(avail) > 0
  {
    if s > 0 {
      assert avail[1..][s - 1].None?;
      CountPositive(avail[1..], s - 1);
    }
  }

  /** The code keeps slots in 16 bits: exactly the messages with at most 65536 transactions keep
      every slot intact, since no prefilled transaction lies past slot 65535. */
  lemma SixteenBits(avail: seq<Option<Tx>>, pre: seq<Prefilled>, shorts: nat)
    requires AllPlaced(pre, shorts) && |avail| == shorts + |pre| && Holds(avail, pre, |pre|) && CountNone(avail) == shorts
    ensures (forall i :: 0 <= i < shorts ==> FreeSlot(avail, i) % (MAX_16 + 1) == FreeSlot(avail, i)) <==> |avail| <= MAX_16 + 1
  {
    hide PlaceOf, FreeSlot, CountNone;
    if |avail| > MAX_16 + 1 {
      var s := |avail| - 1;
      assert avail[s].None? by {
        forall k | 0 <= k < |pre| ensures PlaceOf(pre, k) != s {
          assert PlaceOk(pre, shorts, k);
        }
      }
      SlotOfSome(avail, s);
      var i :| 0 <= i < CountNone(avail) && FreeSlot(avail, i) == s;
      assert FreeSlot(avail, i) % (MAX_16 + 1) != FreeSlot(avail, i);
    }
  }

  // ----- Matching transactions to slots -----

  /** A transaction with the hash its short id is computed from. */
  datatype Entry = Entry(hash: nat, tx: Tx)

  /** The short id keyed by the message, left uninterpreted. */
  type ShortId = nat -> nat

  /** Short ids to slots: each of the first n to its own free slot. */
  ghost predicate SlotMap(ids: map<nat, nat>, base: seq<Option<Tx>>, shortIds: seq<nat>, n: nat) {
    && n <= |shortIds| && n <= CountNone(base)
    && (forall i :: 0 <= i < n ==> shortIds[i] in ids)
    && (forall id :: id in ids ==> exists i :: 0 <= i < n && shortIds[i] == id && ids[id] == FreeSlot(base, i))
  }

  ghost predicate Distinct(s: seq<nat>) {
    forall i, j :: 0 <= i < j < |s| ==> s[i] != s[j]
  }

  function Filled(avail: seq<Option<Tx>>, base: seq<Option<Tx>>): nat
    requires |avail| == |base|
  {
    if avail == [] then 0
    else (if avail[0].Some? && base[0].None? then 1 else 0) + Filled(avail[1..], base[1..])
  }

  lemma {:induction false} FilledUpdate(avail: seq<Option<Tx>>, base: seq<Option<Tx>>, s: nat, t: Option<Tx>)
    requires |avail| == |base| && s < |avail| && base[s].None?
    ensures Filled(avail[s := t], base) + (if avail[s].Some? then 1 else 0) == Filled(avail, base) + (if t.Some? then 1 else 0)
  {
    var d := avail[s := t];
    if s == 0 {
      assert d[1..] == avail[1..];
    } else {
      assert d[1..] == avail[1..][s - 1 := t];
      FilledUpdate(avail[1..], base[1..], s - 1, t);
    }
  }

  lemma {:induction false} FilledSame(base: seq<Option<Tx>>)
    ensures Filled(base, base) == 0
  {
    if base != [] {
      FilledSame(base[1..]);
    }
  }

  /** When as many slots are filled as were free, every slot is filled. */
  lemma {:induction false} AllFilled(avail: seq<Option<Tx>>, base: seq<Option<Tx>>)
    requires |avail| == |base|
    ensures Filled(avail, base) <= CountNone(base)
    ensures Filled(avail, base) == CountNone(base) <==> forall s :: 0 <= s < |base| && base[s].None? ==> avail[s].Some?
  {
    if base != [] {
      AllFilled(avail[1..], base[1..]);
      if Filled(avail, base) == CountNone(base) {
        forall s | 0 <= s < |base| && base[s].None? ensures avail[s].Some? {
          if s > 0 {
            assert base[1..][s - 1].None? && avail[1..][s - 1] == avail[s];
          }
        }
      }
    }
  }

  ghost predicate Matches(sid: ShortId, entries: seq<Entry>, k: nat, id: nat)
    requires k < |entries|
  {
    sid(entries[k].hash) == id
  }

  /** Of the first n entries only entry k is for the short id. */
  ghost predicate OnlyMatch(sid: ShortId, entries: seq<Entry>, n: nat, k: nat, id: nat)
    requires k < n <= |entries|
  {
    Matches(sid, entries, k, id) && forall j :: 0 <= j < n && Matches(sid, entries, j, id) ==> j == k
  }

  /** The content of a slot, and whether any transaction was seen for it. */
  datatype Cell = Cell(slot: Option<Tx>, seen: bool)

  /** The mempool rule: the first transaction is taken, any further one clears the slot. */
  function FromPool(c: Cell, tx: Tx): Cell {
    if c.seen then Cell(None, true) else Cell(Some(tx), true)
  }

  /** The rule for extra transactions: a further one clears the slot unless it is the same one. */
  function FromExtra(c: Cell, tx: Tx, witnessHash: Tx -> nat): Cell {
    if !c.seen then Cell(Some(tx), true)
    else if c.slot.Some? && witnessHash(c.slot.value) != witnessHash(tx) then Cell(None, true)
    else c
  }

  /** The slot of a short id after the first n mempool transactions. */
  function PoolCell(sid: ShortId, pool: seq<Entry>, n: nat, id: nat): Cell
    requires n <= |pool|
  {
    if n == 0 then Cell(None, false)
    else
      var c := PoolCell(sid, pool, n - 1, id);
      if sid(pool[n - 1].hash) == id then FromPool(c, pool[n - 1].tx) else c
  }

  /** And after the first n extra transactions. */
  function ExtraCell(c: Cell, sid: ShortId, witnessHash: Tx -> nat, extra: seq<Entry>, n: nat, id: nat): Cell
    requires n <= |extra|
  {
    if n == 0 then c
    else
      var d := ExtraCell(c, sid, witnessHash, extra, n - 1, id);
      if sid(extra[n - 1].hash) == id then FromExtra(d, extra[n - 1].tx, witnessHash) else d
  }

  /** Exactly one of the mempool transactions looked at matches, or the slot is free. */
  lemma {:induction false} PoolLaw(sid: ShortId, pool: seq<Entry>, n: nat, id: nat)
    requires n <= |pool|
    ensures var c := PoolCell(sid, pool, n, id);
      && (c.seen <==> exists k :: 0 <= k < n && Matches(sid, pool, k, id))
      && (c.slot.Some? <==> exists k :: 0 <= k < n && OnlyMatch(sid, pool, n, k, id))
      && (forall k :: 0 <= k < n && OnlyMatch(sid, pool, n, k, id) ==> c.slot == Some(pool[k].tx))
  {
    if n > 0 {
      PoolLaw(sid, pool, n - 1, id);
      var c, d := PoolCell(sid, pool, n - 1, id), PoolCell(sid, pool, n, id);
      if Matches(sid, pool, n - 1, id) {
        if c.seen {
          var j :| 0 <= j < n - 1 && Matches(sid, pool, j, id);
          assert forall k :: 0 <= k < n ==> !OnlyMatch(sid, pool, n, k, id);
        } else {
          assert OnlyMatch(sid, pool, n, n - 1, id);
        }
      } else {
        assert forall k :: 0 <= k < n - 1 ==> (OnlyMatch(sid, pool, n - 1, k, id) <==> OnlyMatch(sid, pool, n, k, id));
        assert !OnlyMatch(sid, pool, n, n - 1, id);
        if c.slot.Some? {
          var k :| 0 <= k < n - 1 && OnlyMatch(sid, pool, n - 1, k, id);
          assert OnlyMatch(sid, pool, n, k, id);
        }
      }
    }
  }

  /** All of the first n entries for this short id are the transaction t, going by the witness hash. */
  ghost predicate SameWitness(sid: ShortId, witnessHash: Tx -> nat, entries: seq<Entry>, n: nat, id: nat, t: Tx)
    requires n <= |entries|
  {
    forall k :: 0 <= k < n && Matches(sid, entries, k, id) ==> witnessHash(entries[k].tx) == witnessHash(t)
  }

  ghost predicate FirstMatch(sid: ShortId, entries: seq<Entry>, n: nat, k: nat, id: nat)
    requires n <= |entries|
  {
    k < n && Matches(sid, entries, k, id) && forall j :: 0 <= j < k ==> !Matches(sid, entries, j, id)
  }

  /** A slot with a transaction keeps it while all further ones are the same; one without takes the
      first and then does so; one that was cleared stays clear. */
  lemma {:induction false} ExtraLaw(c: Cell, sid: ShortId, witnessHash: Tx -> nat, extra: seq<Entry>, n: nat, id: nat)
    requires n <= |extra| && (c.slot.Some? ==> c.seen)
    ensures var d := ExtraCell(c, sid, witnessHash, extra, n, id);
      && (d.seen <==> c.seen || exists k :: 0 <= k < n && Matches(sid, extra, k, id))
      && (!d.seen ==> d.slot == None)
      && (c.seen && c.slot == None ==> d.slot == None)
      && (c.slot.Some? ==>
            d.slot == if SameWitness(sid, witnessHash, extra, n, id, c.slot.value) then c.slot else None)
      && (forall k: nat :: !c.seen && FirstMatch(sid, extra, n, k, id) ==>
            d.slot == if SameWitness(sid, witnessHash, extra, n, id, extra[k].tx) then Some(extra[k].tx) else None)
  {
    if n > 0 {
      ExtraLaw(c, sid, witnessHash, extra, n - 1, id);
      ExtraOneMore(c, sid, witnessHash, extra, n, id);
      var now := Matches(sid, extra, n - 1, id);
      assert (exists k :: 0 <= k < n && Matches(sid, extra, k, id)) <==>
        now || exists k :: 0 <= k < n - 1 && Matches(sid, extra, k, id);
      if !c.seen {
        FirstSplit(sid, extra, n, id);
      }
    }
  }

  lemma ExtraOneMore(c: Cell, sid: ShortId, witnessHash: Tx -> nat, extra: seq<Entry>, n: nat, id: nat)
    requires 0 < n <= |extra|
    ensures forall t :: SameWitness(sid, witnessHash, extra, n, id, t) <==>
      SameWitness(sid, witnessHash, extra, n - 1, id, t)
      && (Matches(sid, extra, n - 1, id) ==> witnessHash(extra[n - 1].tx) == witnessHash(t))
    ensures forall k: nat :: k < n - 1 ==> (FirstMatch(sid, extra, n, k, id) <==> FirstMatch(sid, extra, n - 1, k, id))
  {
  }

  /** A first match exists as soon as there is any. */
  lemma {:induction false} FirstSplit(sid: ShortId, extra: seq<Entry>, n: nat, id: nat)
    requires n <= |extra|
    ensures (exists k :: 0 <= k < n && Matches(sid, extra, k, id)) <==> exists k: nat :: FirstMatch(sid, extra, n, k, id)
    ensures forall j: nat, k: nat :: FirstMatch(sid, extra, n, j, id) && FirstMatch(sid, extra, n, k, id) ==> j == k
  {
    if n > 0 {
      FirstSplit(sid, extra, n - 1, id);
      var m: nat := n - 1;
      if exists k: nat :: FirstMatch(sid, extra, m, k, id) {
        var k: nat :| FirstMatch(sid, extra, m, k, id);
        assert FirstMatch(sid, extra, n, k, id);
      } else if Matches(sid, extra, n - 1, id) {
        assert FirstMatch(sid, extra, n, n - 1, id);
      }
    }
  }

  // ----- Where the loops stop -----

  /** After n mempool transactions every short id has one. */
  ghost predicate PoolFull(sid: ShortId, pool: seq<Entry>, n: nat, shortIds: seq<nat>)
    requires n <= |pool|
  {
    forall i :: 0 <= i < |shortIds| ==> PoolCell(sid, pool, n, shortIds[i]).slot.Some?
  }

  /** How many mempool transactions are looked at, with k looked at so far. */
  ghost function PoolStop(sid: ShortId, pool: seq<Entry>, shortIds: seq<nat>, k: nat): (n: nat)
    requires k <= |pool|
    ensures k <= n <= |pool| && (n < |pool| ==> k < n && PoolFull(sid, pool, n, shortIds))
    ensures forall j :: k < j < n ==> !PoolFull(sid, pool, j, shortIds)
    decreases |pool| - k
  {
    if k == |pool| then k
    else if PoolFull(sid, pool, k + 1, shortIds) then k + 1
    else PoolStop(sid, pool, shortIds, k + 1)
  }

  /** Everything on offer to the matching loops. */
  datatype Offer = Offer(sid: ShortId, witnessHash: Tx -> nat, pool: seq<Entry>, extra: seq<Entry>, shortIds: seq<nat>) {

    ghost function AfterPool(id: nat): Cell {
      PoolCell(sid, pool, PoolStop(sid, pool, shortIds, 0), id)
    }

    ghost function AfterExtra(n: nat, id: nat): Cell
      requires n <= |extra|
    {
      ExtraCell(AfterPool(id), sid, witnessHash, extra, n, id)
    }

    ghost predicate ExtraFull(n: nat)
      requires n <= |extra|
    {
      forall i :: 0 <= i < |shortIds| ==> AfterExtra(n, shortIds[i]).slot.Some?
    }

    ghost function ExtraStop(k: nat): (n: nat)
      requires k <= |extra|
      ensures k <= n <= |extra| && (n < |extra| ==> k < n && ExtraFull(n))
      ensures forall j :: k < j < n ==> !ExtraFull(j)
      decreases |extra| - k
    {
      if k == |extra| then k else if ExtraFull(k + 1) then k + 1 else ExtraStop(k + 1)
    }

    /** What the slot of a short id holds in the end. */
    ghost function Final(id: nat): Option<Tx> {
      AfterExtra(ExtraStop(0), id).slot
    }

    /** While some short id has no match in the mempool, all of the mempool is looked at. */
    lemma WholePool(i: nat)
      requires i < |shortIds| && forall k :: 0 <= k < |pool| ==> !Matches(sid, pool, k, shortIds[i])
      ensures PoolStop(sid, pool, shortIds, 0) == |pool|
    {
      var n := PoolStop(sid, pool, shortIds, 0);
      PoolLaw(sid, pool, n, shortIds[i]);
    }

    /** And all the extra transactions too, while some short id has no match anywhere. */
    lemma WholeExtra(i: nat)
      requires i < |shortIds| && forall k :: 0 <= k < |pool| ==> !Matches(sid, pool, k, shortIds[i])
      requires forall k :: 0 <= k < |extra| ==> !Matches(sid, extra, k, shortIds[i])
      ensures ExtraStop(0) == |extra|
    {
      PoolLaw(sid, pool, PoolStop(sid, pool, shortIds, 0), shortIds[i]);
      ExtraLaw(AfterPool(shortIds[i]), sid, witnessHash, extra, ExtraStop(0), shortIds[i]);
    }

    /**
     The law of reconstruction, for what the loops looked at: two mempool transactions for a short
     id leave its slot free, a single one stays unless a different extra one turns up, and without
     any the first extra one is taken unless a different one follows.
     */
    lemma FinalLaw(id: nat)
      ensures var np, ne := PoolStop(sid, pool, shortIds, 0), ExtraStop(0);
        && (forall j, k :: 0 <= j < k < np && Matches(sid, pool, j, id) && Matches(sid, pool, k, id) ==> Final(id) == None)
        && (forall k :: 0 <= k < np && OnlyMatch(sid, pool, np, k, id) ==>
              Final(id) == if SameWitness(sid, witnessHash, extra, ne, id, pool[k].tx) then Some(pool[k].tx) else None)
        && ((forall k :: 0 <= k < np ==> !Matches(sid, pool, k, id)) ==>
              && (forall k: nat :: FirstMatch(sid, extra, ne, k, id) ==>
                    Final(id) == if SameWitness(sid, witnessHash, extra, ne, id, extra[k].tx) then Some(extra[k].tx) else None)
              && ((forall k :: 0 <= k < ne ==> !Matches(sid, extra, k, id)) ==> Final(id) == None))
    {
      var np, ne := PoolStop(sid, pool, shortIds, 0), ExtraStop(0);
      PoolLaw(sid, pool, np, id);
      ExtraLaw(AfterPool(id), sid, witnessHash, extra, ne, id);
      forall j, k | 0 <= j < k < np && Matches(sid, pool, j, id) && Matches(sid, pool, k, id)
        ensures AfterPool(id) == Cell(None, true)
      {
        assert forall i :: 0 <= i < np ==> !OnlyMatch(sid, pool, np, i, id);
      }
    }
  }
}
