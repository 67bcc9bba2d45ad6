/**
 The slots of the eight-way cuckoo cache (src/cuckoocache.h) as values: where an element may sit,
 which slots are kept, how many kept slots belong to the current epoch, and what one write keeps.
 */
module CuckooTable {

  type Element = nat

  const WORD: nat := 0x1_0000_0000

  type Word = w: nat | w < 0x1_0000_0000

  /** The eight hash functions, left uninterpreted. */
  type Hasher = (Element, nat) -> Word

  /** A 32-bit hash, read as a fraction of one, times the size of the table. */
  function Loc(hash: Hasher, size: nat, e: Element, k: nat): nat {
    hash(e, k) * size / WORD
  }

  /** Every location is inside the table. */
  lemma LocInRange(hash: Hasher, size: nat, e: Element, k: nat)
    requires size > 0
    ensures Loc(hash, size, e, k) < size
  {
    Scaled(hash(e, k), size);
  }

  /** A location is the hash as a fraction of 2^32, scaled to the size and rounded down; so it grows
      with the hash, and hash zero gives the first slot and the largest hash the last. */
  lemma LocScales(hash: Hasher, size: nat, e: Element, k: nat, f: Element, j: nat)
    requires 0 < size < WORD
    ensures Loc(hash, size, e, k) * WORD <= hash(e, k) * size < (Loc(hash, size, e, k) + 1) * WORD
    ensures hash(e, k) <= hash(f, j) ==> Loc(hash, size, e, k) <= Loc(hash, size, f, j)
    ensures hash(e, k) == 0 ==> Loc(hash, size, e, k) == 0
    ensures hash(e, k) == WORD - 1 ==> Loc(hash, size, e, k) == size - 1
  {
    var a, b := hash(e, k) * size, hash(f, j) * size;
    Floor(a);
    Floor(b);
    if hash(e, k) <= hash(f, j) {
      Ordered(hash(e, k), hash(f, j), size);
    }
    assert (WORD - 1) * size == (size - 1) * WORD + (WORD - size);
  }

  lemma Floor(a: nat)
    ensures (a / WORD) * WORD <= a < (a / WORD + 1) * WORD
  {
  }

  lemma Ordered(v: nat, w: nat, size: nat)
    requires v <= w
    ensures v * size <= w * size
  {
  }

  lemma Scaled(w: Word, size: nat)
    requires size > 0
    ensures 0 <= w * size / WORD < size
  {
    assert w * size <= (WORD - 1) * size;
  }

  datatype Slot = Slot(elem: Element, discard: bool, epoch: bool)

  predicate Own(hash: Hasher, size: nat, e: Element, i: nat) {
    exists k :: 0 <= k < 8 && Loc(hash, size, e, k) == i
  }

  /** A slot that is kept, or was ever written, holds an element at one of its own locations. */
  ghost predicate Located(hash: Hasher, filler: Element, c: seq<Slot>) {
    forall i :: 0 <= i < |c| && (!c[i].discard || c[i].elem != filler) ==> Own(hash, |c|, c[i].elem, i)
  }

  /** No element but the initial filler sits in two slots. */
  ghost predicate Distinct(filler: Element, c: seq<Slot>) {
    forall i, j :: 0 <= i < j < |c| && c[i].elem == c[j].elem ==> c[i].elem == filler
  }

  ghost predicate Absent(filler: Element, c: seq<Slot>, e: Element) {
    e == filler || forall i :: 0 <= i < |c| ==> c[i].elem != e
  }

  ghost predicate Ok(hash: Hasher, filler: Element, c: seq<Slot>) {
    Located(hash, filler, c) && Distinct(filler, c)
  }

  /** An element found at none of its locations is nowhere in the table. */
  lemma NotFoundAbsent(hash: Hasher, filler: Element, c: seq<Slot>, e: Element)
    requires Ok(hash, filler, c)
    requires forall i :: 0 <= i < |c| && Own(hash, |c|, e, i) ==> c[i].elem != e
    ensures Absent(filler, c, e)
  {
  }

  // ----- Kept elements with their epochs -----

  type Bag = multiset<(Element, bool)>

  function One(s: Slot): Bag {
    if s.discard then multiset{} else multiset{(s.elem, s.epoch)}
  }

  /** The kept elements, each with its epoch flag. */
  function Kept(c: seq<Slot>): Bag {
    if c == [] then multiset{} else Kept(c[..|c| - 1]) + One(c[|c| - 1])
  }

  function Unit(s: Slot): nat {
    if s.epoch && !s.discard then 1 else 0
  }

  /** The number of kept slots in the current epoch. */
  function Current(c: seq<Slot>): nat {
    if c == [] then 0 else Current(c[..|c| - 1]) + Unit(c[|c| - 1])
  }

  lemma AddBoth(a: Bag, b: Bag, x: Bag, y: Bag, z: Bag)
    requires a + x == b + y
    ensures (a + z) + x == (b + z) + y
  {
    assert (a + z) + x == (a + x) + z;
    assert (b + z) + y == (b + y) + z;
  }

  lemma {:induction false} KeptUpdate(c: seq<Slot>, i: nat, s: Slot)
    requires i < |c|
    ensures Kept(c[i := s]) + One(c[i]) == Kept(c) + One(s)
  {
    hide One;
    var d := c[i := s];
    var n := |c| - 1;
    if i == n {
      assert d[..n] == c[..n];
    } else {
      assert d[..n] == c[..n][i := s];
      KeptUpdate(c[..n], i, s);
      AddBoth(Kept(d[..n]), Kept(c[..n]), One(c[i]), One(s), One(c[n]));
    }
  }

  lemma {:induction false} CurrentUpdate(c: seq<Slot>, i: nat, s: Slot)
    requires i < |c|
    ensures Current(c[i := s]) + Unit(c[i]) == Current(c) + Unit(s)
  {
    var d := c[i := s];
    var n := |c| - 1;
    if i == n {
      assert d[..n] == c[..n];
    } else {
      assert d[..n] == c[..n][i := s];
      CurrentUpdate(c[..n], i, s);
    }
  }

  lemma {:induction false} NoneCurrent(c: seq<Slot>)
    requires forall i :: 0 <= i < |c| ==> Unit(c[i]) == 0
    ensures Current(c) == 0
  {
    if c != [] {
      NoneCurrent(c[..|c| - 1]);
    }
  }

  /** Discarding more slots never adds to the current epoch. */
  lemma {:induction false} FewerCurrent(c: seq<Slot>, d: seq<Slot>)
    requires |c| == |d| && forall i :: 0 <= i < |c| ==> Unit(d[i]) <= Unit(c[i])
    ensures Current(d) <= Current(c)
  {
    if c != [] {
      FewerCurrent(c[..|c| - 1], d[..|d| - 1]);
    }
  }

  /** What is kept is at one of its own locations. */
  lemma {:induction false} KeptSomewhere(c: seq<Slot>, e: Element, epoch: bool)
    requires (e, epoch) in Kept(c)
    ensures exists i :: 0 <= i < |c| && !c[i].discard && c[i].elem == e
  {
    var n := |c| - 1;
    if (e, epoch) in Kept(c[..n]) {
      KeptSomewhere(c[..n], e, epoch);
      var i :| 0 <= i < n && !c[..n][i].discard && c[..n][i].elem == e;
      assert c[i].elem == e;
    } else {
      assert (e, epoch) in One(c[n]);
    }
  }

  /** After an insertion the element is at one of its locations, unless it is itself what was dropped. */
  lemma InsertedThere(hash: Hasher, filler: Element, c: seq<Slot>, before: Bag, e: Element, dropped: Element,
          epoch: bool, ranOut: bool)
    requires Ok(hash, filler, c) && (!ranOut || dropped != e)
    requires Kept(c) + (if ranOut then multiset{(dropped, epoch)} else multiset{}) == before + multiset{(e, true)}
    ensures exists i :: 0 <= i < |c| && c[i].elem == e && Own(hash, |c|, e, i)
  {
    hide Own, Kept;
    assert (e, true) in before + multiset{(e, true)};
    assert (e, true) in Kept(c);
    KeptSomewhere(c, e, true);
  }

  // ----- Writes -----

  /** The elements in the slots. */
  function Elements(c: seq<Slot>): seq<Element> {
    seq(|c|, i requires 0 <= i < |c| => c[i].elem)
  }

  /** Writing an absent element to one of its own slots, keeping it there with its epoch. */
  lemma WriteKeeps(hash: Hasher, filler: Element, c: seq<Slot>, i: nat, e: Element, epoch: bool)
    requires Ok(hash, filler, c) && Absent(filler, c, e) && i < |c| && Own(hash, |c|, e, i)
    ensures var d := c[i := Slot(e, false, epoch)];
            && Ok(hash, filler, d)
            && Absent(filler, d, c[i].elem)
            && multiset(Elements(d)) + multiset{c[i].elem} == multiset(Elements(c)) + multiset{e}
            && Kept(d) + One(c[i]) == Kept(c) + multiset{(e, epoch)}
            && Current(d) + Unit(c[i]) == Current(c) + (if epoch then 1 else 0)
  {
    hide Own, Kept, Current;
    var s := Slot(e, false, epoch);
    KeptUpdate(c, i, s);
    CurrentUpdate(c, i, s);
    assert Elements(c[i := s]) == Elements(c)[i := e];
  }

  /** Marking the slot where an element was found as kept and current. */
  lemma KeepFound(hash: Hasher, filler: Element, c: seq<Slot>, i: nat)
    requires Ok(hash, filler, c) && i < |c| && Own(hash, |c|, c[i].elem, i)
    ensures var d := c[i := Slot(c[i].elem, false, true)];
            && Ok(hash, filler, d)
            && Elements(d) == Elements(c)
            && Current(d) <= Current(c) + 1
  {
    hide Own, Current;
    CurrentUpdate(c, i, Slot(c[i].elem, false, true));
  }

  /** A slot that is only discarded or aged keeps its element in place. */
  lemma RelaxKeeps(hash: Hasher, filler: Element, c: seq<Slot>, d: seq<Slot>)
    requires Ok(hash, filler, c) && |d| == |c|
    requires forall i :: 0 <= i < |c| ==> d[i].elem == c[i].elem && (c[i].discard ==> d[i].discard)
    ensures Ok(hash, filler, d) && Elements(d) == Elements(c)
  {
    hide Own;
  }

  // ----- Displacement -----

  /** The eight locations of an element. */
  function Locs(hash: Hasher, size: nat, e: Element): (locs: seq<nat>)
    requires size > 0
    ensures |locs| == 8 && forall k :: 0 <= k < 8 ==> locs[k] == Loc(hash, size, e, k) < size
  {
    assert forall k :: 0 <= k < 8 ==> Loc(hash, size, e, k) < size by {
      forall k | 0 <= k < 8 ensures Loc(hash, size, e, k) < size {
        LocInRange(hash, size, e, k);
      }
    }
    seq(8, k requires 0 <= k < 8 => Loc(hash, size, e, k))
  }

  /** The first position from k on that holds x, or the length. */
  function Position(locs: seq<nat>, x: nat, k: nat): (p: nat)
    requires k <= |locs|
    ensures k <= p <= |locs| && x !in locs[k..p] && (p < |locs| ==> locs[p] == x)
    decreases |locs| - k
  {
    if k == |locs| || locs[k] == x then k else Position(locs, x, k + 1)
  }

  /** The first location from k on whose slot may be discarded, or the length. */
  function FirstFree(c: seq<Slot>, locs: seq<nat>, k: nat): (p: nat)
    requires k <= |locs| && forall j :: 0 <= j < |locs| ==> locs[j] < |c|
    ensures k <= p <= |locs| && (p < |locs| ==> c[locs[p]].discard)
    ensures forall j :: k <= j < p ==> !c[locs[j]].discard
    decreases |locs| - k
  {
    if k == |locs| || c[locs[k]].discard then k else FirstFree(c, locs, k + 1)
  }

  /** Where the element in hand goes when all its slots are kept: past the location last used. */
  function NextOf(hash: Hasher, size: nat, e: Element, last: nat): (loc: nat)
    requires size > 0
    ensures loc < size
  {
    var locs := Locs(hash, size, e);
    locs[(1 + Position(locs, last, 0)) % 8]
  }

  lemma NextIs(hash: Hasher, size: nat, e: Element, last: nat, locs: seq<nat>)
    requires size > 0 && locs == Locs(hash, size, e)
    ensures locs[(1 + Position(locs, last, 0)) % 8] == NextOf(hash, size, e, last)
  {
  }

  /** The slots after an insertion, what was dropped and with which epoch, whether the rounds ran
      out, and the elements that were placed by displacing another. */
  datatype Outcome = Outcome(c: seq<Slot>, dropped: Element, epoch: bool, ranOut: bool, chain: seq<Element>)

  /** The element in hand takes its first discardable slot, or else the place of another element,
      which is then in hand; for at most this many rounds. */
  function Displace(hash: Hasher, c: seq<Slot>, hand: Element, epoch: bool, last: nat, rounds: nat,
          chain: seq<Element>): Outcome
    requires c != []
    decreases rounds
  {
    if rounds == 0 then Outcome(c, hand, epoch, true, chain)
    else
      var locs := Locs(hash, |c|, hand);
      var k := FirstFree(c, locs, 0);
      if k < 8 then Outcome(c[locs[k] := Slot(hand, false, epoch)], c[locs[k]].elem, false, false, chain)
      else
        var loc := NextOf(hash, |c|, hand, last);
        Displace(hash, c[loc := Slot(hand, c[loc].discard, epoch)], c[loc].elem, c[loc].epoch, loc, rounds - 1,
                 chain + [hand])
  }

  /** Some slot of the element may be discarded. */
  ghost predicate HasRoom(hash: Hasher, c: seq<Slot>, e: Element)
  {
    exists i :: 0 <= i < |c| && Own(hash, |c|, e, i) && c[i].discard
  }

  /** The search finds a discardable slot exactly when there is one. */
  lemma FreeMeansRoom(hash: Hasher, c: seq<Slot>, e: Element)
    requires c != []
    ensures FirstFree(c, Locs(hash, |c|, e), 0) < 8 <==> HasRoom(hash, c, e)
  {
    hide Loc;
    var locs := Locs(hash, |c|, e);
    var k := FirstFree(c, locs, 0);
    if k < 8 {
      assert Own(hash, |c|, e, locs[k]);
    } else {
      forall i | 0 <= i < |c| && Own(hash, |c|, e, i)
        ensures !c[i].discard
      {
        var j :| 0 <= j < 8 && Loc(hash, |c|, e, j) == i;
        assert locs[j] == i;
      }
    }
  }

  lemma RoomSame(hash: Hasher, c: seq<Slot>, d: seq<Slot>, e: Element)
    requires |c| == |d| && forall i :: 0 <= i < |c| ==> c[i].discard == d[i].discard
    ensures HasRoom(hash, c, e) <==> HasRoom(hash, d, e)
  {
    hide Own;
  }

  /**
   The rounds run out exactly when that many elements in a row had no discardable slot of their own;
   otherwise the last one in hand had one, which is all that is dropped.
   */
  lemma {:induction false} RunsOut(hash: Hasher, c: seq<Slot>, hand: Element, epoch: bool, last: nat, rounds: nat,
          chain: seq<Element>)
    requires c != [] && forall x :: x in chain ==> !HasRoom(hash, c, x)
    ensures var r := Displace(hash, c, hand, epoch, last, rounds, chain);
      && (r.ranOut <==> |r.chain| == |chain| + rounds) && |chain| <= |r.chain| <= |chain| + rounds
      && r.chain[..|chain|] == chain
      && (rounds > 0 && !HasRoom(hash, c, hand) ==> |r.chain| > |chain| && r.chain[|chain|] == hand)
      && (forall x :: x in r.chain ==> !HasRoom(hash, c, x))
    decreases rounds
  {
    hide Loc, Own, NextOf, Locs;
    if rounds > 0 {
      FreeMeansRoom(hash, c, hand);
      if !HasRoom(hash, c, hand) {
        var loc := NextOf(hash, |c|, hand, last);
        var d := c[loc := Slot(hand, c[loc].discard, epoch)];
        forall x ensures HasRoom(hash, c, x) <==> HasRoom(hash, d, x) {
          RoomSame(hash, c, d, x);
        }
        hide HasRoom;
        RunsOut(hash, d, c[loc].elem, c[loc].epoch, loc, rounds - 1, chain + [hand]);
        var r := Displace(hash, c, hand, epoch, last, rounds, chain);
        assert r.chain[..|chain|] == r.chain[..|chain| + 1][..|chain|];
      }
    }
  }

  /** An element with a discardable slot of its own is placed at once. */
  lemma PlacedAtOnce(hash: Hasher, c: seq<Slot>, e: Element, rounds: nat)
    requires c != [] && rounds > 0 && HasRoom(hash, c, e)
    ensures var r := Displace(hash, c, e, true, WORD - 1, rounds, []);
      !r.ranOut && r.chain == [] && exists i :: 0 <= i < |c| && c[i].discard && r.c == c[i := Slot(e, false, true)]
  {
    FreeMeansRoom(hash, c, e);
  }

  /** With two rounds, one discardable slot of the element in the way is enough. */
  lemma SecondChance(hash: Hasher, c: seq<Slot>, e: Element, rounds: nat)
    requires 2 <= |c| < WORD && rounds >= 2
    requires HasRoom(hash, c, c[NextOf(hash, |c|, e, WORD - 1)].elem)
    ensures !Displace(hash, c, e, true, WORD - 1, rounds, []).ranOut
  {
    hide Loc, HasRoom, NextOf, Displace;
    FreeMeansRoom(hash, c, e);
    DisplaceOnce(hash, c, e, true, WORD - 1, rounds, []);
    if !HasRoom(hash, c, e) {
      FirstMove(hash, |c|, e);
      var loc := Loc(hash, |c|, e, 1);
      var d := c[loc := Slot(e, c[loc].discard, true)];
      RoomSame(hash, c, d, c[loc].elem);
      FreeMeansRoom(hash, d, c[loc].elem);
      DisplaceOnce(hash, d, c[loc].elem, c[loc].epoch, loc, rounds - 1, [] + [e]);
    }
  }

  /** The first displacement is at the second location. */
  lemma FirstMove(hash: Hasher, size: nat, e: Element)
    requires 2 <= size < WORD
    ensures NextOf(hash, size, e, WORD - 1) == Loc(hash, size, e, 1) < size
  {
    hide Loc;
    var locs := Locs(hash, size, e);
    assert Position(locs, WORD - 1, 0) == 8;
  }

  /** One round. */
  lemma DisplaceOnce(hash: Hasher, c: seq<Slot>, hand: Element, epoch: bool, last: nat, rounds: nat,
          chain: seq<Element>)
    requires c != [] && rounds > 0
    ensures var locs := Locs(hash, |c|, hand);
      var k, loc := FirstFree(c, locs, 0), NextOf(hash, |c|, hand, last);
      Displace(hash, c, hand, epoch, last, rounds, chain) ==
        if k < 8 then Outcome(c[locs[k] := Slot(hand, false, epoch)], c[locs[k]].elem, false, false, chain)
        else Displace(hash, c[loc := Slot(hand, c[loc].discard, epoch)], c[loc].elem, c[loc].epoch, loc, rounds - 1,
                      chain + [hand])
  {
  }

  /** With one round and no room, the element ends in its second location and what was there is dropped. */
  lemma LastRound(hash: Hasher, c: seq<Slot>, e: Element)
    requires 2 <= |c| < WORD && !HasRoom(hash, c, e)
    ensures var r, loc := Displace(hash, c, e, true, WORD - 1, 1, []), Loc(hash, |c|, e, 1);
      r.ranOut && loc < |c| && r.c == c[loc := Slot(e, false, true)] && r.dropped == c[loc].elem
  {
    hide Loc, HasRoom, NextOf, Locs;
    FreeMeansRoom(hash, c, e);
    FirstMove(hash, |c|, e);
    assert !c[Loc(hash, |c|, e, 1)].discard by {
      SecondKept(hash, c, e);
    }
  }

  lemma SecondKept(hash: Hasher, c: seq<Slot>, e: Element)
    requires 2 <= |c| < WORD && !HasRoom(hash, c, e)
    ensures Loc(hash, |c|, e, 1) < |c| && !c[Loc(hash, |c|, e, 1)].discard
  {
    LocInRange(hash, |c|, e, 1);
    assert Own(hash, |c|, e, Loc(hash, |c|, e, 1));
  }

  /** An element displaced from one of its locations goes elsewhere, if its locations are distinct. */
  lemma NotBack(hash: Hasher, size: nat, e: Element, last: nat)
    requires size > 0 && Own(hash, size, e, last)
    requires forall j, k :: 0 <= j < k < 8 ==> Loc(hash, size, e, j) != Loc(hash, size, e, k)
    ensures NextOf(hash, size, e, last) != last && Own(hash, size, e, NextOf(hash, size, e, last))
  {
  }
}
