/**
 Requests whose entries lie on both sides of a wrap of the sixteen-bit numbers: what the
 packing keeps and what it silently loses.
 */
module NackWrap {
  import opened Words
  import opened NackPairs
  import opened NackMinimal

  /** Ascending and less than a cycle apart, so that no two low halves are the same. */
  predicate Near(sns: seq<nat>) {
    StrictlyIncreasing(sns) && (sns != [] ==> sns[|sns| - 1] - sns[0] < 0x1_0000)
  }

  predicate SameCycle(a: nat, b: nat) { a / 0x1_0000 == b / 0x1_0000 }

  /** The entries before the wrap. */
  function FirstCycle(sns: seq<nat>): seq<nat> {
    if sns == [] || SameCycle(sns[0], sns[|sns| - 1]) then sns else FirstCycle(sns[..|sns| - 1])
  }

  lemma {:induction false} NearFront(sns: seq<nat>)
    requires Near(sns) && |sns| > 1
    ensures var front := sns[..|sns| - 1];
            && Near(front) && front[0] == sns[0] && front[|front| - 1] < sns[|sns| - 1]
            && Lows(sns) == Lows(front) + [Low(sns[|sns| - 1])]
  {
  }

  lemma {:induction false} FirstCycleIs(sns: seq<nat>)
    requires sns != [] && Near(sns)
    ensures var a := FirstCycle(sns);
            && a != [] && Near(a) && OneCycle(a) && a[0] == sns[0] && |a| <= |sns|
            && (|a| == |sns| <==> OneCycle(sns)) && (|a| == |sns| ==> a == sns)
  {
    if SameCycle(sns[0], sns[|sns| - 1]) {
      WithinCycle(sns);
    } else {
      NearFront(sns);
      FirstCycleIs(sns[..|sns| - 1]);
    }
  }

  lemma {:induction false} WithinCycle(sns: seq<nat>)
    requires sns != [] && StrictlyIncreasing(sns) && SameCycle(sns[0], sns[|sns| - 1])
    ensures OneCycle(sns)
  {
    forall i | 0 <= i < |sns| ensures SameCycle(sns[0], sns[i]) {
      assert sns[0] <= sns[i] <= sns[|sns| - 1];
      Between(sns[0], sns[i], sns[|sns| - 1]);
    }
  }

  lemma {:induction false} Between(a: nat, b: nat, c: nat)
    requires a <= b <= c && SameCycle(a, c)
    ensures SameCycle(a, b)
  {
  }

  // ---------------------------------------------------------------- where the open pair starts

  lemma {:induction false} OneMore(sns: seq<nat>)
    requires |sns| > 1 && StrictlyIncreasing(sns) && OneCycle(sns) && Low(sns[0]) > 0
    ensures var front := sns[..|sns| - 1];
            && StrictlyIncreasing(front) && OneCycle(front) && front[0] == sns[0]
            && Open(PackEntries(front), Low(front[|front| - 1]))
            && Low(front[|front| - 1]) < Low(sns[|sns| - 1])
  {
    var front := sns[..|sns| - 1];
    PackExact(front);
    LowsOrdered(front[|front| - 1], sns[|sns| - 1]);
  }

  /** Within a cycle the open pair starts above 65519 exactly when the last greedy window does. */
  lemma {:induction false} AnchorIsStart(sns: seq<nat>)
    requires sns != [] && StrictlyIncreasing(sns) && OneCycle(sns) && Low(sns[0]) > 0
    ensures Anchor(sns) <= 65519 ==> PackEntries(sns).np.packetID == Anchor(sns)
    ensures Anchor(sns) > 65519 ==> PackEntries(sns).np.packetID > 65519
  {
    if |sns| == 1 {
      OneWindow(sns);
    } else {
      hide Low, AddEntry, StrictlyIncreasing, OneCycle, Open;
      OneMore(sns);
      var front := sns[..|sns| - 1];
      AnchorIsStart(front);
      StartMoves(PackEntries(front), Low(front[|front| - 1]), Low(sns[|sns| - 1]));
    }
  }

  /** From above 65519 every entry opens a pair, since the reach test wraps. */
  lemma {:induction false} StartMoves(s: Packing, last: uint16, low: uint16)
    requires Open(s, last) && last < low
    ensures s.np.packetID <= 65519 ==>
              AddEntry(s, low).np.packetID == if low > s.np.packetID + 16 then low else s.np.packetID
    ensures s.np.packetID > 65519 ==> AddEntry(s, low).np.packetID == low
  {
    hide Or, Pow2;
  }

  // ---------------------------------------------------------------- what is lost

  /** An entry of the next cycle, too far for the open pair, sets no bit and opens no pair. */
  lemma {:induction false} EntryLost(s: Packing, low: uint16)
    requires low < s.np.packetID <= 65519
    ensures AddEntry(s, low) == s
  {
    hide Or, Pow2;
    var id: int := s.np.packetID;
    assert Wrap16(id + 16) == id + 16;
    assert Wrap16(low - id - 1) == 65535 + low - id >= 16;
    OrZero(s.np.lostPackets);
  }

  lemma {:induction false} OrZero(b: uint16)
    ensures Wrap16(Or(b, 0)) == b
  {
  }

  lemma {:induction false} NextCycleBelow(first: nat, id: uint16, x: nat)
    requires Low(first) <= id && first < x < first + 0x1_0000 && !SameCycle(first, x)
    ensures Low(x) < id
  {
  }

  lemma {:induction false} StartsAfter(sns: seq<nat>)
    requires sns != [] && StrictlyIncreasing(sns) && OneCycle(sns) && Low(sns[0]) > 0
    ensures PackEntries(sns).np.packetID >= Low(sns[0])
  {
    if |sns| == 1 {
      OneWindow(sns);
    } else {
      hide Low;
      OneMore(sns);
      StartsAfter(sns[..|sns| - 1]);
    }
  }

  /** Below 65520 the open pair takes in nothing of the next cycle. */
  lemma {:induction false} NextCycleLost(sns: seq<nat>)
    requires sns != [] && Near(sns) && Low(sns[0]) > 0 && Anchor(FirstCycle(sns)) <= 65519
    ensures PackEntries(sns) == PackEntries(FirstCycle(sns))
  {
    hide Anchor, AddEntry, Low;
    if !SameCycle(sns[0], sns[|sns| - 1]) {
      var a, x := FirstCycle(sns), sns[|sns| - 1];
      NearFront(sns);
      FirstCycleIs(sns);
      NextCycleLost(sns[..|sns| - 1]);
      AnchorIsStart(a);
      StartsAfter(a);
      NextCycleBelow(sns[0], PackEntries(a).np.packetID, x);
      EntryLost(PackEntries(a), Low(x));
    }
  }

  // ---------------------------------------------------------------- what is kept

  /** As Open, but the open pair, no earlier than `first`, may start before the wrap and the last entry come after it. */
  predicate OpenAt(s: Packing, first: nat, last: nat) {
    var k := Reach(s.np.packetID, Low(last));
    0 < s.np.packetID && k <= 16 && first + k <= last && s.np.lostPackets < Pow2(k)
  }

  /** An entry within reach becomes the next bit, whether or not the wrap lies between. */
  lemma {:induction false} BitAcross(s: Packing, n: nat, d: nat, low: uint16)
    requires s.np.lostPackets < Pow2(n) && n <= d < 16
    requires low == Wrap16(s.np.packetID + d + 1) && low <= Wrap16(s.np.packetID + 16) && s.np.packetID > 0
    ensures Reads(AddEntry(s, low)) == Reads(s) + [low]
    ensures AddEntry(s, low).np.packetID == s.np.packetID
    ensures AddEntry(s, low).np.lostPackets < Pow2(d + 1)
  {
    hide Or, Followers, Reads, Pow2, OneShifted;
    var id, mask := s.np.packetID, s.np.lostPackets;
    Pow2Mono(n, d);
    ShiftBound(d);
    BitPlace(id, d, low);
    hide Wrap16;
    MaskGrows(mask, d);
    FollowersAppend(id, mask, d, 16);
    assert AddEntry(s, low) == Packing(s.done, NackPair(id, mask + Pow2(d)));
    OneMoreRead(s, NackPair(id, mask + Pow2(d)), low);
  }

  lemma {:induction false} BitPlace(id: uint16, d: nat, low: uint16)
    requires d < 16 && low == Wrap16(id + d + 1)
    ensures Wrap16(low - id - 1) == d
  {
  }

  lemma {:induction false} OneMoreRead(s: Packing, np: NackPair, low: uint16)
    requires np.packetID == s.np.packetID != 0
    requires Followers(np.packetID, np.lostPackets, 16) == Followers(s.np.packetID, s.np.lostPackets, 16) + [low]
    ensures Reads(Packing(s.done, np)) == Reads(s) + [low]
  {
    hide Followers, ReadPairs;
    assert PacketList(np) == PacketList(s.np) + [low];
    assert ReadPairs(s.done) + (PacketList(s.np) + [low]) == (ReadPairs(s.done) + PacketList(s.np)) + [low];
  }

  lemma {:induction false} MaskGrows(mask: uint16, d: nat)
    requires mask < Pow2(d) && d < 16
    ensures Wrap16(Or(mask, Pow2(d))) == mask + Pow2(d) < Pow2(d + 1)
  {
    hide Or;
    ShiftBound(d);
    Pow2Next(d);
    OrDisjoint(1, d, mask);
    OrCommutes(mask, Pow2(d));
  }

  /** How the reach test comes out for an entry after the last one. */
  lemma {:induction false} ReachTest(id: uint16, last: nat, x: nat)
    requires Reach(id, Low(last)) <= 16 && last < x && x - last + Reach(id, Low(last)) < 0x1_0000 && id > 0
    requires SameCycle(last, x) || id > 65519
    ensures var k, low := Reach(id, Low(last)) + (x - last), Low(x);
            && (low > Wrap16(id + 16) ==> low > 0)
            && (low <= Wrap16(id + 16) ==> k <= 16 && low == Wrap16(id + k) && Reach(id, low) == k)
  {
  }

  lemma {:induction false} EntryKept(s: Packing, first: nat, last: nat, x: nat)
    requires OpenAt(s, first, last) && last < x < first + 0x1_0000
    requires SameCycle(last, x) || s.np.packetID > 65519
    ensures Reads(AddEntry(s, Low(x))) == Reads(s) + [Low(x)]
    ensures OpenAt(AddEntry(s, Low(x)), first, x)
    ensures AddEntry(s, Low(x)).np.packetID == s.np.packetID || AddEntry(s, Low(x)).np.packetID == Low(x)
  {
    hide Reads, Low, Wrap16, Pow2, Or;
    var id, low := s.np.packetID, Low(x);
    var n := Reach(id, Low(last));
    var k := n + (x - last);
    ReachTest(id, last, x);
    if low > Wrap16(id as int + 16) {
      NewPair(s, low);
      ReachSelf(low);
    } else {
      BitAcross(s, n, k - 1, low);
    }
  }

  lemma {:induction false} ReachSelf(x: uint16)
    ensures Reach(x, x) == 0 && Pow2(0) == 1
  {
  }

  lemma {:induction false} OpenIsOpenAt(s: Packing, first: nat, last: nat)
    requires Open(s, Low(last)) && SameCycle(first, last) && first <= last && Low(first) <= s.np.packetID
    ensures OpenAt(s, first, last)
  {
    hide Pow2;
    assert Reach(s.np.packetID, Low(last)) == Low(last) as int - s.np.packetID as int;
  }

  lemma {:induction false} AcrossOnce(first: nat, last: nat, x: nat)
    requires first <= last < x < first + 0x1_0000 && !SameCycle(last, x)
    ensures SameCycle(first, last) && !SameCycle(first, x)
  {
  }

  /** From 65520 on the open pair reaches into the next cycle, and nothing is lost there. */
  lemma {:induction false} NextCycleKept(sns: seq<nat>)
    requires sns != [] && Near(sns) && Low(sns[0]) > 0
    requires SameCycle(sns[0], sns[|sns| - 1]) || Anchor(FirstCycle(sns)) > 65519
    ensures Reads(PackEntries(sns)) == Lows(sns)
    ensures OpenAt(PackEntries(sns), sns[0], sns[|sns| - 1])
  {
    hide Anchor, AddEntry, Low, Reads, OpenAt, SameCycle;
    FirstCycleIs(sns);
    var x := sns[|sns| - 1];
    if SameCycle(sns[0], x) {
      PackExact(sns);
      StartsAfter(sns);
      OpenIsOpenAt(PackEntries(sns), sns[0], x);
    } else {
      NotAlone(sns);
      NearFront(sns);
      var front := sns[..|sns| - 1];
      NextCycleKept(front);
      if !SameCycle(front[|front| - 1], x) {
        AcrossOnce(sns[0], front[|front| - 1], x);
        AnchorIsStart(front);
      }
      EntryKept(PackEntries(front), sns[0], front[|front| - 1], x);
    }
  }

  lemma {:induction false} NotAlone(sns: seq<nat>)
    requires sns != [] && !SameCycle(sns[0], sns[|sns| - 1])
    ensures |sns| > 1 && FirstCycle(sns) == FirstCycle(sns[..|sns| - 1])
  {
  }

  /** What the packing needs to lose nothing: no leading zero, and at a wrap a last window that starts at its top. */
  predicate Packable(sns: seq<nat>) {
    sns == [] || (Low(sns[0]) != 0 && (OneCycle(sns) || Anchor(FirstCycle(sns)) > 65519))
  }

  lemma {:induction false} ZeroStarts(sns: seq<nat>)
    requires sns != [] && Near(sns) && Low(sns[0]) == 0
    ensures OneCycle(sns)
  {
    WithinCycle(sns);
  }

  lemma {:induction false} CycleIsNear(sns: seq<nat>)
    requires StrictlyIncreasing(sns) && OneCycle(sns)
    ensures Near(sns)
  {
  }

  /**
   For ascending entries less than a cycle apart the pairs name exactly the entries, each
   once and in order, if and only if the first does not have a zero low half and either
   no wrap lies between them or the last greedy window before it starts above 65519.
   Otherwise, at a wrap, every entry after it is lost.
   */
  lemma {:induction false} PairsAcrossWrap(sns: seq<nat>)
    requires Near(sns)
    ensures ReadPairs(PairsOf(sns)) == Lows(sns) <==> Packable(sns)
    ensures !OneCycle(sns) && !Packable(sns) ==> ReadPairs(PairsOf(sns)) == Lows(FirstCycle(sns))
  {
    hide Anchor, Low, Reads, PackEntries, ReadPairs;
    if sns == [] || OneCycle(sns) {
      PairsExact(sns);
    } else {
      if Low(sns[0]) == 0 {
        ZeroStarts(sns);
      }
      var a := FirstCycle(sns);
      FirstCycleIs(sns);
      ReadsPairs(PackEntries(sns));
      if Anchor(a) > 65519 {
        NextCycleKept(sns);
      } else {
        NextCycleLost(sns);
        ReadsPairs(PackEntries(a));
        PairsExact(a);
        assert |Lows(a)| != |Lows(sns)|;
      }
    }
  }

  /** A number of the next cycle that is silently lost, and one that is not. */
  lemma {:induction false} LostAcrossWrap()
    ensures ReadPairs(PairsOf([65519, 65537])) == [65519]
    ensures ReadPairs(PairsOf([65520, 65537])) == [65520, 1]
  {
    hide PairsOf, ReadPairs, Packable;
    TwoAcross(65519, 65537);
    TwoAcross(65520, 65537);
    PairsAcrossWrap([65519, 65537]);
    PairsAcrossWrap([65520, 65537]);
  }

  lemma {:induction false} TwoAcross(x: nat, y: nat)
    requires 0 < x < 0x1_0000 <= y < 0x1_0000 + x
    ensures Near([x, y]) && !OneCycle([x, y]) && FirstCycle([x, y]) == [x]
    ensures Packable([x, y]) <==> x > 65519
    ensures Lows([x]) == [x] && Lows([x, y]) == [x, y - 0x1_0000]
  {
    hide PackEntries;
    assert [x, y][..1] == [x] && [x][..0] == [];
    assert Low(x) == x && Low(y) == y - 0x1_0000;
    assert !SameCycle([x, y][0], [x, y][1]);
  }
}
