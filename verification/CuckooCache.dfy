/**
 The cuckoo cache itself (src/cuckoocache.h): packed discard flags, epochs, insertion by
 displacement and lookup. Threads that only mark slots are not modelled.
 */
module CuckooCache {
  import opened ByteBits
  import opened CuckooTable

  function MarksOf(m: seq<bv8>): seq<bool> {
    seq(8 * |m|, s requires 0 <= s < 8 * |m| => Bit(m[s / 8], s % 8))
  }

  lemma MarkSet(m: seq<bv8>, s: nat)
    requires s < 8 * |m|
    ensures MarksOf(m[s / 8 := WithBit(m[s / 8], s % 8, true)]) == MarksOf(m)[s := true]
  {
    hide Bit, WithBit;
    var d := m[s / 8 := WithBit(m[s / 8], s % 8, true)];
    forall p | 0 <= p < 8 * |m| ensures Bit(d[p / 8], p % 8) == (p == s || Bit(m[p / 8], p % 8)) {
      SetBit(m[p / 8], s % 8, true, p % 8);
      assert p / 8 == s / 8 && p % 8 == s % 8 ==> p == s;
    }
  }

  lemma MarkUnset(m: seq<bv8>, s: nat)
    requires s < 8 * |m|
    ensures MarksOf(m[s / 8 := WithoutBit(m[s / 8], s % 8)]) == MarksOf(m)[s := false]
  {
    hide Bit, WithoutBit;
    var d := m[s / 8 := WithoutBit(m[s / 8], s % 8)];
    forall p | 0 <= p < 8 * |m| ensures Bit(d[p / 8], p % 8) == (p != s && Bit(m[p / 8], p % 8)) {
      ClearBit(m[p / 8], s % 8, p % 8);
      assert p / 8 == s / 8 && p % 8 == s % 8 ==> p == s;
    }
  }

  /** One discard flag per slot, eight to a byte. */
  class BitPackedFlags {
    const mem: array<bv8>

    ghost function Marks(): seq<bool>
      reads mem
    {
      MarksOf(mem[..])
    }

    /** All flags start raised. */
    constructor (size: nat)
      ensures fresh(mem) && mem.Length == (size + 7) / 8
      ensures forall s :: 0 <= s < |Marks()| ==> Marks()[s]
    {
      mem := new bv8[(size + 7) / 8](_ => 0xFF);
      new;
      forall s | 0 <= s < |Marks()| ensures Marks()[s] {
        ConstantBits(s % 8);
      }
    }

    method BitSet(s: nat)
      requires s < 8 * mem.Length
      modifies mem
      ensures Marks() == old(Marks())[s := true]
    {
      hide WithBit, MarksOf;
      MarkSet(mem[..], s);
      ghost var before := mem[..];
      mem[s / 8] := WithBit(mem[s / 8], s % 8, true);
      assert mem[..] == before[s / 8 := mem[s / 8]];
    }

    method BitUnset(s: nat)
      requires s < 8 * mem.Length
      modifies mem
      ensures Marks() == old(Marks())[s := false]
    {
      hide WithoutBit, MarksOf;
      MarkUnset(mem[..], s);
      ghost var before := mem[..];
      mem[s / 8] := WithoutBit(mem[s / 8], s % 8);
      assert mem[..] == before[s / 8 := mem[s / 8]];
    }

    method BitIsSet(s: nat) returns (r: bool)
      requires s < 8 * mem.Length
      ensures r == Marks()[s]
    {
      r := Bit(mem[s / 8], s % 8);
    }
  }

  /** An epoch ends: current entries become old, old ones may be discarded. */
  function Aged(s: Slot): Slot {
    Slot(s.elem, s.discard || !s.epoch, false)
  }

  function AgedAll(c: seq<Slot>): seq<Slot> {
    seq(|c|, i requires 0 <= i < |c| => Aged(c[i]))
  }

  /** The slots after the check before an insertion: aged when the scan finds the epoch full. */
  function Checked(c: seq<Slot>, counter: nat, epochSize: nat): seq<Slot> {
    if counter == 0 && Current(c) >= epochSize then AgedAll(c) else c
  }

  /** How many insertions until the next scan. */
  function NextCounter(c: seq<Slot>, counter: nat, epochSize: nat): nat {
    if counter != 0 then counter - 1
    else if Current(c) >= epochSize then epochSize
    else Max(1, Max(epochSize / 16, epochSize - Current(c)))
  }

  function EpochBound(epochSize: nat): nat {
    epochSize + Max(1, epochSize / 16)
  }

  /** The check leaves room for one more entry of the current epoch. */
  lemma CheckMakesRoom(hash: Hasher, filler: Element, c: seq<Slot>, counter: nat, epochSize: nat)
    requires Ok(hash, filler, c) && epochSize >= 1 && Current(c) + counter <= EpochBound(epochSize)
    ensures var d := Checked(c, counter, epochSize);
            && Ok(hash, filler, d) && Elements(d) == Elements(c)
            && Current(d) + NextCounter(c, counter, epochSize) + 1 <= EpochBound(epochSize)
  {
    hide Ok, Current;
    if counter == 0 && Current(c) >= epochSize {
      RelaxKeeps(hash, filler, c, AgedAll(c));
      NoneCurrent(AgedAll(c));
    }
  }

  function Cells(table: seq<Element>, marks: seq<bool>, epochs: seq<bool>): seq<Slot>
    requires |epochs| == |table| <= |marks|
  {
    seq(|table|, i requires 0 <= i < |table| => Slot(table[i], marks[i], epochs[i]))
  }

  function Max(a: nat, b: nat): nat {
    if a < b then b else a
  }

  /** The location after the one last used; an unknown one counts as position eight. */
  method NextLoc(locs: seq<nat>, last: nat) returns (loc: nat)
    requires |locs| == 8
    ensures loc == locs[(1 + Position(locs, last, 0)) % 8]
    ensures last !in locs ==> loc == locs[1]
    ensures last in locs ==> exists k :: 0 <= k < 8 && locs[k] == last && last !in locs[..k] && loc == locs[(k + 1) % 8]
  {
    var k := 0;
    while k < 8 && locs[k] != last
      invariant 0 <= k <= 8 && last !in locs[..k] && Position(locs, last, 0) == Position(locs, last, k)
    {
      k := k + 1;
    }
    loc := locs[(1 + k) % 8];
  }

  class Cache {
    const hash: Hasher
    const filler: Element
    const size: nat
    const epochSize: nat
    const depthLimit: nat
    const flags: BitPackedFlags
    var table: seq<Element>
    var epochFlags: seq<bool>
    var counter: nat
    ghost var inserted: set<Element>

    ghost predicate Shape()
      reads this
    {
      && 2 <= size < WORD
      && |table| == |epochFlags| == size
      && flags.mem.Length == (size + 7) / 8
      && epochSize >= 1 && depthLimit >= 1
    }

    /** What the slots hold. */
    ghost function Slots(): seq<Slot>
      requires Shape()
      reads this, flags.mem
    {
      Cells(table, flags.Marks(), epochFlags)
    }

    /** Every kept or written slot holds an element at one of its own locations, nothing but the
        filler twice; what was never inserted is not there; the current epoch stays bounded. */
    ghost predicate Valid()
      reads this, flags.mem
    {
      && Shape()
      && Ok(hash, filler, Slots())
      && (forall i :: 0 <= i < size ==> table[i] == filler || table[i] in inserted)
      && Current(Slots()) + counter <= EpochBound(epochSize)
    }

    /** Setting up for a number of slots; the depth limit is the floor of a float logarithm. */
    constructor Setup(hash: Hasher, filler: Element, newSize: Word, depthLimit: nat)
      requires depthLimit >= 1
      ensures Valid() && fresh(flags.mem)
      ensures this.hash == hash && this.filler == filler && this.depthLimit == depthLimit
      ensures size == Max(2, newSize) && epochSize == Max(1, (45 * size) % WORD / 100)
      ensures table == seq(size, _ => filler) && Kept(Slots()) == multiset{} && inserted == {} && counter == epochSize
    {
      var n := Max(2, newSize);
      this.hash, this.filler, this.depthLimit, size := hash, filler, depthLimit, n;
      table, epochFlags := seq(n, _ => filler), seq(n, _ => false);
      flags := new BitPackedFlags(n);
      var es := Max(1, (45 * n) % WORD / 100);
      epochSize, counter, inserted := es, es, {};
      new;
      NoneCurrent(Slots());
      NoneKept(Slots());
    }

    lemma SlotElements()
      requires Shape()
      ensures Elements(Slots()) == table && |Slots()| == size
      ensures forall i :: 0 <= i < size ==> Slots()[i].elem == table[i]
    {
    }

    // ----- Slot writes -----

    /** Put an element in a slot and keep it there. */
    method Store(loc: nat, e: Element, epoch: bool)
      requires Shape() && loc < size
      modifies this`table, this`epochFlags, flags.mem
      ensures Shape() && Slots() == old(Slots())[loc := Slot(e, false, epoch)]
      ensures table == old(table)[loc := e]
    {
      table := table[loc := e];
      flags.BitUnset(loc);
      epochFlags := epochFlags[loc := epoch];
    }

    /** Keep what a slot holds, as part of the current epoch. */
    method Keep(loc: nat)
      requires Shape() && loc < size
      modifies this`epochFlags, flags.mem
      ensures Shape() && Slots() == old(Slots())[loc := Slot(table[loc], false, true)]
    {
      flags.BitUnset(loc);
      epochFlags := epochFlags[loc := true];
    }

    /** Exchange an element in hand, and its epoch, with those of a slot. */
    method Swap(loc: nat, e: Element, epoch: bool) returns (elem: Element, was: bool)
      requires Shape() && loc < size
      modifies this`table, this`epochFlags
      ensures Shape() && Slots() == old(Slots())[loc := Slot(e, old(Slots())[loc].discard, epoch)]
      ensures elem == old(Slots())[loc].elem && was == old(Slots())[loc].epoch
      ensures table == old(table)[loc := e]
    {
      elem, was := table[loc], epochFlags[loc];
      table := table[loc := e];
      epochFlags := epochFlags[loc := epoch];
    }

    method ComputeHashes(e: Element) returns (locs: seq<nat>)
      requires size > 0
      ensures |locs| == 8 && locs == Locs(hash, size, e)
      ensures forall k :: 0 <= k < 8 ==> locs[k] == Loc(hash, size, e, k) < size
    {
      locs := [];
      for k := 0 to 8
        invariant |locs| == k && forall j :: 0 <= j < k ==> locs[j] == Loc(hash, size, e, j)
      {
        locs := locs + [Loc(hash, size, e, k)];
      }
    }

    // ----- Epochs -----

    method CountCurrent() returns (count: nat)
      requires Shape()
      ensures count == Current(Slots())
    {
      count := 0;
      for i := 0 to size
        invariant count == Current(Slots()[..i])
      {
        var set_ := flags.BitIsSet(i);
        count := count + (if epochFlags[i] && !set_ then 1 else 0);
        assert Slots()[..i + 1][..i] == Slots()[..i];
      }
      assert Slots()[..size] == Slots();
    }

    method AgeAll()
      requires Shape()
      modifies this`epochFlags, flags.mem
      ensures Shape()
      ensures Slots() == AgedAll(old(Slots()))
    {
      for i := 0 to size
        invariant Shape()
        invariant forall j :: 0 <= j < i ==> Slots()[j] == Aged(old(Slots())[j])
        invariant forall j :: i <= j < size ==> Slots()[j] == old(Slots())[j]
      {
        if epochFlags[i] {
          epochFlags := epochFlags[i := false];
        } else {
          flags.BitSet(i);
        }
      }
    }

    /** Run before every insertion. */
    method EpochCheck()
      requires Valid()
      modifies this`epochFlags, this`counter, flags.mem
      ensures Valid() && Current(Slots()) + counter + 1 <= EpochBound(epochSize)
      ensures Slots() == Checked(old(Slots()), old(counter), epochSize)
      ensures counter == NextCounter(old(Slots()), old(counter), epochSize)
    {
      hide Ok, Current, AgedAll, Cells, BitPackedFlags.Marks, EpochBound;
      CheckMakesRoom(hash, filler, Slots(), counter, epochSize);
      if counter != 0 {
        counter := counter - 1;
        return;
      }
      var count := CountCurrent();
      if count >= epochSize {
        AgeAll();
        counter := epochSize;
      } else {
        counter := Max(1, Max(epochSize / 16, epochSize - count));
      }
    }

    // ----- Insertion -----

    /** The first of the locations that satisfies a test, or eight. */
    method FindElement(locs: seq<nat>, e: Element) returns (k: nat)
      requires Shape() && |locs| == 8 && forall j :: 0 <= j < 8 ==> locs[j] < size
      ensures k <= 8 && (k < 8 ==> table[locs[k]] == e)
      ensures forall j :: 0 <= j < k ==> table[locs[j]] != e
    {
      k := 0;
      while k < 8 && table[locs[k]] != e
        invariant 0 <= k <= 8
        invariant forall j :: 0 <= j < k ==> table[locs[j]] != e
      {
        k := k + 1;
      }
    }

    method FindDiscardable(locs: seq<nat>) returns (k: nat)
      requires Shape() && |locs| == 8 && forall j :: 0 <= j < 8 ==> locs[j] < size
      ensures k == FirstFree(Slots(), locs, 0)
      ensures k <= 8 && (k < 8 ==> Slots()[locs[k]].discard)
      ensures forall j :: 0 <= j < k ==> !Slots()[locs[j]].discard
    {
      k := 0;
      while k < 8
        invariant 0 <= k <= 8 && FirstFree(Slots(), locs, 0) == FirstFree(Slots(), locs, k)
        invariant forall j :: 0 <= j < k ==> !Slots()[locs[j]].discard
      {
        var free := flags.BitIsSet(locs[k]);
        if free {
          return;
        }
        k := k + 1;
      }
    }

    /** What becomes of the slots when an absent element is inserted into them. */
    ghost function Displaced(c: seq<Slot>, e: Element): Outcome
      requires c != []
    {
      Displace(hash, c, e, true, WORD - 1, depthLimit, [])
    }

    /** Inserting an absent element, displacing others for at most depthLimit rounds. Reports
        which element is dropped and whether the rounds ran out. */
    method InsertAbsent(e: Element) returns (ghost dropped: Element, ghost epoch: bool, ghost ranOut: bool)
      requires Shape() && Ok(hash, filler, Slots()) && Absent(filler, Slots(), e)
      modifies this`table, this`epochFlags, flags.mem
      ensures Shape() && Ok(hash, filler, Slots())
      ensures var r := Displaced(old(Slots()), e);
        Slots() == r.c && dropped == r.dropped && epoch == r.epoch && ranOut == r.ranOut
      ensures multiset(table) + multiset{dropped} == multiset(old(table)) + multiset{e}
      ensures Current(Slots()) <= old(Current(Slots())) + 1
      ensures !ranOut ==> Kept(Slots()) == old(Kept(Slots())) + multiset{(e, true)}
      ensures !ranOut ==> exists i :: 0 <= i < size && old(Slots())[i].discard && old(table)[i] == dropped
      ensures ranOut ==> Kept(Slots()) + multiset{(dropped, epoch)} == old(Kept(Slots())) + multiset{(e, true)}
      ensures ranOut ==> forall i :: 0 <= i < size && Own(hash, size, e, i) ==> !old(Slots())[i].discard
    {
      hide Own, Ok, Kept, Current, Absent, Elements, Moving, Cells, Loc, BitPackedFlags.Marks;
      hide Displace, Locs, FirstFree, Position, NextOf;
      var hand, lastEpoch := e, true;
      var lastLoc: nat := WORD - 1;
      var locs := ComputeHashes(e);
      ghost var c0 := Slots();
      ghost var c := c0;
      SlotElements();
      MovingStart(hash, filler, c, e);
      ghost var chain: seq<Element>, target := [], Displaced(c0, e);
      var depth := 0;
      while depth < depthLimit
        invariant 0 <= depth <= depthLimit
        invariant Shape() && c == Slots() && |c| == size && |locs| == 8 && locs == Locs(hash, size, hand)
        invariant target == Displace(hash, c, hand, lastEpoch, lastLoc, depthLimit - depth, chain)
        invariant forall k :: 0 <= k < 8 ==> locs[k] == Loc(hash, size, hand, k) < size
        invariant Moving(this.hash, filler, c0, c, e, hand, lastEpoch)
        invariant depth == 0 ==> hand == e && c == c0
        invariant depth > 0 ==> Own(hash, size, hand, lastLoc)
        invariant depth > 0 ==> forall i :: 0 <= i < size && Own(hash, size, e, i) ==> !c0[i].discard
      {
        DisplaceOnce(hash, c, hand, lastEpoch, lastLoc, depthLimit - depth, chain);
        var k := FindDiscardable(locs);
        if k < 8 {
          OwnAt(hash, size, hand, k);
          MovingStored(hash, filler, c0, c, e, hand, lastEpoch, locs[k]);
          Store(locs[k], hand, lastEpoch);
          SlotElements();
          dropped, epoch, ranOut := c[locs[k]].elem, false, false;
          assert c0[locs[k]].discard && old(table)[locs[k]] == dropped;
          return;
        }
        if depth == 0 {
          AllKept(hash, c, e, locs);
        } else {
          // The element in hand was displaced from one of its own locations.
          OwnAmong(hash, size, hand, lastLoc, locs);
        }
        NextIs(hash, size, hand, lastLoc, locs);
        lastLoc := NextLoc(locs, lastLoc);
        ghost var j :| 0 <= j < 8 && locs[j] == lastLoc;
        OwnAt(hash, size, hand, j);
        MovingSwapped(hash, filler, c0, c, e, hand, lastEpoch, lastLoc);
        chain := chain + [hand];
        hand, lastEpoch := Swap(lastLoc, hand, lastEpoch);
        c := Slots();
        SlotElements();
        locs := ComputeHashes(hand);
        depth := depth + 1;
      }
      NoRoundsLeft(hash, c, hand, lastEpoch, lastLoc, chain);
      MovingEnd(hash, filler, c0, c, e, hand, lastEpoch);
      SlotElements();
      dropped, epoch, ranOut := hand, lastEpoch, true;
    }

    /** The slots once the check before an insertion is done. */
    ghost function Ready(): seq<Slot>
      requires Shape()
      reads this, flags.mem
    {
      Checked(Slots(), counter, epochSize)
    }

    /** The slots are those given, but with e kept and current in its own slot i. */
    ghost predicate KeptAt(ready: seq<Slot>, was: seq<Element>, e: Element, i: int)
      requires Shape() && |ready| == |was| == size
      reads this, flags.mem
    {
      0 <= i < size && Own(hash, size, e, i) && was[i] == e && Slots() == ready[i := Slot(e, false, true)]
    }

    /** Inserting: an element already at one of its locations is kept there; an absent one is
        stored, and the table as a whole loses exactly one value. */
    method Insert(e: Element) returns (ghost dropped: Element, ghost epoch: bool, ghost ranOut: bool)
      requires Valid()
      modifies this, flags.mem
      ensures Valid() && inserted == old(inserted) + {e}
      ensures old(Found(e)) ==> table == old(table) && dropped == e && !ranOut
      ensures old(Found(e)) ==> exists i :: KeptAt(old(Ready()), old(table), e, i)
      ensures multiset(table) + multiset{dropped} == multiset(old(table)) + multiset{e}
      ensures !old(Found(e)) && !ranOut ==> Kept(Slots()) == Kept(old(Ready())) + multiset{(e, true)}
      ensures !old(Found(e)) && !ranOut ==> exists i :: 0 <= i < size && old(Ready())[i].discard && old(table)[i] == dropped
      ensures ranOut ==> Kept(Slots()) + multiset{(dropped, epoch)} == Kept(old(Ready())) + multiset{(e, true)}
      ensures ranOut ==> forall i :: 0 <= i < size && Own(hash, size, e, i) ==> !old(Ready())[i].discard
      ensures var r := Displaced(old(Ready()), e);
        !old(Found(e)) ==> Slots() == r.c && dropped == r.dropped && epoch == r.epoch && ranOut == r.ranOut
      ensures !(ranOut && dropped == e) ==> Found(e)
      ensures ranOut && dropped == e && e != filler ==> !Found(e)
    {
      hide Own, Ok, Kept, Current, Elements, Cells, Loc, Checked, BitPackedFlags.Marks, EpochBound, Displace;
      SlotElements();
      EpochCheck();
      SlotElements();
      inserted := inserted + {e};
      var locs := ComputeHashes(e);
      var k := FindElement(locs, e);
      FoundAmong(e, locs, k);
      if k < 8 {
        OwnAt(hash, size, e, k);
        KeepFound(hash, filler, Slots(), locs[k]);
        Keep(locs[k]);
        dropped, epoch, ranOut := e, false, false;
        SlotElements();
        assert KeptAt(old(Ready()), old(table), e, locs[k]);
      } else {
        NotFoundAbsent(hash, filler, Slots(), e);
        ghost var ready := Slots();
        dropped, epoch, ranOut := InsertAbsent(e);
        OnlyInserted(old(table), table, e, dropped, filler, old(inserted));
        SlotElements();
        if ranOut && dropped == e {
          Vanished(old(table), table, e);
        } else {
          InsertedThere(hash, filler, Slots(), Kept(ready), e, dropped, epoch, ranOut);
          var i :| 0 <= i < size && Slots()[i].elem == e && Own(hash, size, e, i);
          assert table[i] == e;
        }
      }
    }

    /** Is the element at one of its locations? */
    ghost predicate Found(e: Element)
      requires |table| == size
      reads this
    {
      exists i :: 0 <= i < size && Own(hash, size, e, i) && table[i] == e
    }

    lemma FoundAmong(e: Element, locs: seq<nat>, k: nat)
      requires Shape() && |locs| == 8 && k <= 8
      requires forall j :: 0 <= j < 8 ==> locs[j] == Loc(hash, size, e, j) < size
      requires (k < 8 ==> table[locs[k]] == e) && forall j :: 0 <= j < k ==> table[locs[j]] != e
      ensures Found(e) <==> k < 8
      ensures k < 8 ==> Own(hash, size, e, locs[k])
      ensures k == 8 ==> forall i :: 0 <= i < size && Own(hash, size, e, i) ==> table[i] != e
    {
      hide Loc;
      if k < 8 {
        OwnAt(hash, size, e, k);
      }
      forall i | 0 <= i < size && Own(hash, size, e, i) ensures i in locs {
        OwnAmong(hash, size, e, i, locs);
      }
    }

    /** Looking up, and with erase marking the slot where the element was found. */
    method Contains(e: Element, erase: bool) returns (found: bool)
      requires Valid()
      modifies flags.mem
      ensures Valid() && found == Found(e)
      ensures !(found && erase) ==> Slots() == old(Slots())
      ensures found && erase ==>
                exists i :: 0 <= i < size && table[i] == e && Slots() == old(Slots())[i := old(Slots())[i].(discard := true)]
    {
      hide Own, Ok, Kept, Current, Elements, Loc;
      var locs := ComputeHashes(e);
      var k := FindElement(locs, e);
      FoundAmong(e, locs, k);
      found := k < 8;
      if found && erase {
        ghost var c := Slots();
        flags.BitSet(locs[k]);
        RelaxKeeps(hash, filler, c, Slots());
        FewerCurrent(c, Slots());
        assert Slots() == c[locs[k] := c[locs[k]].(discard := true)];
      }
    }

    /** For every element but the filler a lookup answers membership of the table, so only what
        was inserted is found; what a kept slot holds is always found. */
    lemma FoundMeansPresent(e: Element)
      requires Valid()
      ensures e != filler ==> (Found(e) <==> e in table)
      ensures Found(e) ==> e == filler || e in inserted
      ensures forall i :: 0 <= i < size && !Slots()[i].discard ==> Found(table[i])
    {
      hide Own, Kept, Current;
      if e != filler && e in table {
        var i :| 0 <= i < size && table[i] == e;
        assert Slots()[i].elem == e;
      }
    }

    /** Erasing only marks: a lookup that erases does not hide the element from the next one. */
    method EraseThenFind(e: Element) returns (ok: bool)
      requires Valid()
      modifies this, flags.mem
      ensures ok
    {
      ghost var d, p, r := Insert(e);
      var found := Contains(e, true);
      if !found {
        return true;
      }
      ok := Contains(e, false);
    }

    method Step(op: Op) returns (answer: bool)
      requires Valid()
      modifies this, flags.mem
      ensures Valid() && inserted == old(inserted) + Inserted([op])
      ensures op.Lookup? && answer ==> op.e == filler || op.e in old(inserted)
    {
      match op {
        case Insert(e) =>
          ghost var d, p, r := Insert(e);
          answer := true;
        case Lookup(e, erase) =>
          FoundMeansPresent(e);
          answer := Contains(e, erase);
      }
    }

    /** What operation i names was inserted before it, or is the filler. */
    ghost predicate Known(before: set<Element>, ops: seq<Op>, i: nat)
      requires i < |ops|
    {
      ops[i].e == filler || ops[i].e in before + Inserted(ops[..i])
    }

    /** Any run keeps the invariant, and no lookup finds what was never inserted. */
    method Run(ops: seq<Op>) returns (answers: seq<bool>)
      requires Valid()
      modifies this, flags.mem
      ensures Valid() && Current(Slots()) <= EpochBound(epochSize)
      ensures |answers| == |ops| && inserted == old(inserted) + Inserted(ops)
      ensures forall i :: 0 <= i < |ops| && ops[i].Lookup? && answers[i] ==> Known(old(inserted), ops, i)
    {
      hide Cache.Valid, Current, EpochBound;
      answers := [];
      for i := 0 to |ops|
        invariant Valid() && |answers| == i
        invariant inserted == old(inserted) + Inserted(ops[..i])
        invariant forall j :: 0 <= j < i && ops[j].Lookup? && answers[j] ==> Known(old(inserted), ops, j)
      {
        assert ops[..i + 1][..i] == ops[..i];
        var answer := Step(ops[i]);
        answers := answers + [answer];
      }
      assert ops[..|ops|] == ops;
      EpochBounded();
    }

    /** So at no time does the current epoch keep more than its bound. */
    lemma EpochBounded()
      requires Valid()
      ensures Current(Slots()) <= EpochBound(epochSize)
    {
    }
  }

  datatype Op = Insert(e: Element) | Lookup(e: Element, erase: bool)

  function Inserted(ops: seq<Op>): set<Element> {
    if ops == [] then {}
    else
      var last := ops[|ops| - 1];
      Inserted(ops[..|ops| - 1]) + (if last.Insert? then {last.e} else {})
  }

  lemma OnlyInserted(t: seq<Element>, u: seq<Element>, e: Element, dropped: Element, filler: Element,
          known: set<Element>)
    requires multiset(u) + multiset{dropped} == multiset(t) + multiset{e}
    requires forall i :: 0 <= i < |t| ==> t[i] == filler || t[i] in known
    ensures forall i :: 0 <= i < |u| ==> u[i] == filler || u[i] in known + {e}
  {
    forall i | 0 <= i < |u| ensures u[i] == filler || u[i] in known + {e} {
      assert u[i] in multiset(u) + multiset{dropped};
      assert u[i] in multiset(t) || u[i] == e;
    }
  }

  lemma Vanished(t: seq<Element>, u: seq<Element>, e: Element)
    requires multiset(u) + multiset{e} == multiset(t) + multiset{e}
    ensures e in u <==> e in t
  {
    assert e in u <==> multiset(u)[e] > 0;
    assert e in t <==> multiset(t)[e] > 0;
    assert multiset(u)[e] + 1 == (multiset(u) + multiset{e})[e];
    assert multiset(t)[e] + 1 == (multiset(t) + multiset{e})[e];
  }

  lemma {:induction false} NoneKept(c: seq<Slot>)
    requires forall i :: 0 <= i < |c| ==> c[i].discard
    ensures Kept(c) == multiset{}
  {
    if c != [] {
      NoneKept(c[..|c| - 1]);
    }
  }

  // ----- Displacement -----

  /** Between rounds: the slots and the element in hand together are the old slots and e. */
  ghost predicate Moving(hash: Hasher, filler: Element, c0: seq<Slot>, c: seq<Slot>, e: Element, hand: Element,
          epoch: bool) {
    && |c| == |c0|
    && Ok(hash, filler, c) && Absent(filler, c, hand)
    && multiset(Elements(c)) + multiset{hand} == multiset(Elements(c0)) + multiset{e}
    && Kept(c) + multiset{(hand, epoch)} == Kept(c0) + multiset{(e, true)}
    && Current(c) + (if epoch then 1 else 0) == Current(c0) + 1
    && (forall i :: 0 <= i < |c| ==> c[i].discard == c0[i].discard && (c[i].discard ==> c[i] == c0[i]))
  }

  lemma MovingStart(hash: Hasher, filler: Element, c: seq<Slot>, e: Element)
    requires Ok(hash, filler, c) && Absent(filler, c, e)
    ensures Moving(hash, filler, c, c, e, e, true)
  {
  }

  lemma NoRoundsLeft(hash: Hasher, c: seq<Slot>, hand: Element, epoch: bool, last: nat, chain: seq<Element>)
    requires c != []
    ensures Displace(hash, c, hand, epoch, last, 0, chain) == Outcome(c, hand, epoch, true, chain)
  {
  }

  lemma MovingEnd(hash: Hasher, filler: Element, c0: seq<Slot>, c: seq<Slot>, e: Element, hand: Element, epoch: bool)
    requires Moving(hash, filler, c0, c, e, hand, epoch)
    ensures Ok(hash, filler, c)
    ensures multiset(Elements(c)) + multiset{hand} == multiset(Elements(c0)) + multiset{e}
    ensures Kept(c) + multiset{(hand, epoch)} == Kept(c0) + multiset{(e, true)}
    ensures Current(c) <= Current(c0) + 1
  {
  }

  lemma OwnAt(hash: Hasher, size: nat, e: Element, k: nat)
    requires k < 8
    ensures Own(hash, size, e, Loc(hash, size, e, k))
  {
  }

  lemma OwnAmong(hash: Hasher, size: nat, e: Element, i: nat, locs: seq<nat>)
    requires |locs| == 8 && forall k :: 0 <= k < 8 ==> locs[k] == Loc(hash, size, e, k)
    requires Own(hash, size, e, i)
    ensures i in locs
  {
    var k :| 0 <= k < 8 && Loc(hash, size, e, k) == i;
    assert locs[k] == i;
  }

  lemma AllKept(hash: Hasher, c: seq<Slot>, e: Element, locs: seq<nat>)
    requires |locs| == 8 && forall k :: 0 <= k < 8 ==> locs[k] == Loc(hash, |c|, e, k) < |c|
    requires forall k :: 0 <= k < 8 ==> !c[locs[k]].discard
    ensures forall i :: 0 <= i < |c| && Own(hash, |c|, e, i) ==> !c[i].discard
  {
    forall i | 0 <= i < |c| && Own(hash, |c|, e, i) ensures !c[i].discard {
      OwnAmong(hash, |c|, e, i, locs);
    }
  }

  lemma MovingStored(hash: Hasher, filler: Element, c0: seq<Slot>, c: seq<Slot>, e: Element, hand: Element,
          epoch: bool, i: nat)
    requires Moving(hash, filler, c0, c, e, hand, epoch)
    requires i < |c| && c[i].discard && Own(hash, |c|, hand, i)
    ensures var d := c[i := Slot(hand, false, epoch)];
            && Ok(hash, filler, d)
            && multiset(Elements(d)) + multiset{c[i].elem} == multiset(Elements(c0)) + multiset{e}
            && Kept(d) == Kept(c0) + multiset{(e, true)}
            && Current(d) == Current(c0) + 1
            && c0[i].discard && c0[i].elem == c[i].elem
  {
    hide Own, Ok, Kept, Current, Absent, Elements;
    WriteKeeps(hash, filler, c, i, hand, epoch);
  }

  lemma MovingSwapped(hash: Hasher, filler: Element, c0: seq<Slot>, c: seq<Slot>, e: Element, hand: Element,
          epoch: bool, i: nat)
    requires Moving(hash, filler, c0, c, e, hand, epoch)
    requires i < |c| && !c[i].discard && Own(hash, |c|, hand, i)
    ensures Moving(hash, filler, c0, c[i := Slot(hand, false, epoch)], e, c[i].elem, c[i].epoch)
    ensures Own(hash, |c|, c[i].elem, i)
  {
    assert Own(hash, |c|, c[i].elem, i);
    hide Own, Ok, Kept, Current, Absent, Elements;
    WriteKeeps(hash, filler, c, i, hand, epoch);
    assert One(c[i]) == multiset{(c[i].elem, c[i].epoch)};
    hide One, Unit;
  }
}
