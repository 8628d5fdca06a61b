/**
 Generic NACK pairs (section 6.2.1 of RFC 4585): a lost packet's number and a bitmask
 for the sixteen that follow it.  The packing done by the loss queue, what a receiver
 of the pairs reads, and the proof that the packing is exact.
 */
module NackPairs {
  import opened Words

  datatype NackPair = NackPair(packetID: uint16, lostPackets: uint16)

  function Low(sn: nat): uint16 { Wrap16(sn) }

  // ---------------------------------------------------------------- reader

  predicate Bit(b: nat, i: nat) {
    if i == 0 then b % 2 == 1 else Bit(b / 2, i - 1)
  }

  /** The numbers named by the low n bits of a mask. */
  function Followers(id: uint16, mask: nat, n: nat): seq<uint16> {
    if n == 0 then []
    else Followers(id, mask, n - 1) + if Bit(mask, n - 1) then [Wrap16(id + n)] else []
  }

  /** Every number a pair reports lost. */
  function PacketList(p: NackPair): seq<uint16> {
    [p.packetID] + Followers(p.packetID, p.lostPackets, 16)
  }

  function ReadPairs(ps: seq<NackPair>): seq<uint16> { FlatMap(PacketList, ps) }

  // ---------------------------------------------------------------- writer

  /** 1 << d for a sixteen-bit operand. */
  function OneShifted(d: nat): uint16 {
    if d < 16 then Wrap16(Pow2(d)) else 0
  }

  /** The pair being filled, and the pairs before it. */
  datatype Packing = Packing(done: seq<NackPair>, np: NackPair)

  const EMPTY := Packing([], NackPair(0, 0))

  /** One live entry: a new pair when there is none yet or the entry is out of reach, else a bit. */
  function AddEntry(s: Packing, low: uint16): Packing {
    if s.np.packetID == 0 || low > Wrap16(s.np.packetID + 16) then
      Packing(if s.np.packetID != 0 then s.done + [s.np] else s.done, NackPair(low, 0))
    else
      Packing(s.done, NackPair(s.np.packetID,
                               Wrap16(Or(s.np.lostPackets, OneShifted(Wrap16(low - s.np.packetID - 1))))))
  }

  function PackEntries(sns: seq<nat>): Packing {
    if sns == [] then EMPTY else AddEntry(PackEntries(sns[..|sns| - 1]), Low(sns[|sns| - 1]))
  }

  function PairsOf(sns: seq<nat>): seq<NackPair> {
    var s := PackEntries(sns);
    if s.np.packetID != 0 then s.done + [s.np] else s.done
  }

  // ---------------------------------------------------------------- exactness

  predicate StrictlyIncreasing(s: seq<nat>) { forall i, j :: 0 <= i < j < |s| ==> s[i] < s[j] }

  /** All numbers carry the same cycle count above their low sixteen bits. */
  predicate OneCycle(s: seq<nat>) {
    forall i, j :: 0 <= i < |s| && 0 <= j < |s| ==> s[i] / 0x1_0000 == s[j] / 0x1_0000
  }

  function Lows(s: seq<nat>): (r: seq<uint16>)
    ensures |r| == |s|
  {
    seq(|s|, i requires 0 <= i < |s| => Low(s[i]))
  }

  lemma {:induction false} BitBelow(b: nat, d: nat, i: nat)
    requires b < Pow2(d)
    ensures i >= d ==> !Bit(b, i)
    ensures i < d ==> (Bit(b + Pow2(d), i) <==> Bit(b, i))
    ensures Bit(b + Pow2(d), d)
    ensures i > d ==> !Bit(b + Pow2(d), i)
    decreases d + i
  {
    if d == 0 {
      ZeroBits(i);
      if i > 0 {
        ZeroBits(i - 1);
      }
    } else if i == 0 {
      BitBelow(b / 2, d - 1, 0);
    } else {
      assert (b + Pow2(d)) / 2 == b / 2 + Pow2(d - 1);
      BitBelow(b / 2, d - 1, i - 1);
    }
  }

  lemma {:induction false} ZeroBits(i: nat)
    ensures !Bit(0, i)
  {
    if i > 0 {
      ZeroBits(i - 1);
    }
  }

  /** A higher bit names a later number. */
  lemma {:induction false} FollowersAppend(id: uint16, b: nat, d: nat, n: nat)
    requires b < Pow2(d)
    ensures n <= d ==> Followers(id, b + Pow2(d), n) == Followers(id, b, n)
    ensures n > d ==> Followers(id, b + Pow2(d), n) == Followers(id, b, n) + [Wrap16(id + d + 1)]
  {
    if n == 0 {
    } else {
      FollowersAppend(id, b, d, n - 1);
      BitBelow(b, d, n - 1);
      if n - 1 > d {
        assert Followers(id, b, n - 1) + [Wrap16(id + d + 1)] + [] == Followers(id, b, n - 1) + [] + [Wrap16(id + d + 1)];
      }
    }
  }

  lemma {:induction false} NoFollowers(id: uint16, n: nat)
    ensures Followers(id, 0, n) == []
  {
    if n > 0 {
      NoFollowers(id, n - 1);
      ZeroBits(n - 1);
    }
  }

  /** What a packing stands for. */
  function Reads(s: Packing): seq<uint16> {
    ReadPairs(s.done) + if s.np.packetID == 0 then [] else PacketList(s.np)
  }

  /** The pair being filled starts at or before the last entry and its mask names nothing beyond it. */
  predicate Open(s: Packing, last: uint16) {
    && 0 < s.np.packetID <= last
    && last - s.np.packetID <= 16
    && s.np.lostPackets < Pow2(last - s.np.packetID)
  }

  lemma {:induction false} NewPair(s: Packing, low: uint16)
    requires low > 0 && (s.np.packetID == 0 || low > Wrap16(s.np.packetID + 16))
    ensures Reads(AddEntry(s, low)) == Reads(s) + [low]
    ensures Open(AddEntry(s, low), low)
  {
    NoFollowers(low, 16);
    var done := if s.np.packetID != 0 then s.done + [s.np] else s.done;
    assert PacketList(NackPair(low, 0)) == [low];
    if s.np.packetID != 0 {
      assert (s.done + [s.np])[..|s.done|] == s.done;
      assert ReadPairs(done) == ReadPairs(s.done) + PacketList(s.np);
    } else {
      assert ReadPairs(s.done) + [] == ReadPairs(s.done);
    }
  }

  lemma {:induction false} ShiftBound(d: nat)
    requires d < 16
    ensures Pow2(d) <= 0x8000 && OneShifted(d) == Pow2(d)
  {
    Pow2Mono(d, 15);
    assert Pow2(15) == 0x8000 by {
      assert Pow2(5) == 32;
      assert Pow2(10) == 1024;
    }
  }

  lemma {:induction false} Pow2Mono(a: nat, b: nat)
    requires a <= b
    ensures Pow2(a) <= Pow2(b)
  {
    if a < b {
      Pow2Mono(a, b - 1);
    }
  }

  lemma {:induction false} SameMask(s: Packing, last: uint16, low: uint16)
    requires Open(s, last) && last < low && low - s.np.packetID <= 16
    ensures var d := low - s.np.packetID - 1;
            && s.np.lostPackets < Pow2(d) && d < 16
            && Wrap16(Or(s.np.lostPackets, OneShifted(d))) == s.np.lostPackets + Pow2(d)
  {
    var d := low - s.np.packetID - 1;
    Pow2Mono(last - s.np.packetID, d);
    ShiftBound(d);
    OrDisjoint(1, d, s.np.lostPackets);
    OrCommutes(s.np.lostPackets, Pow2(d));
  }

  lemma {:induction false} SamePairList(id: uint16, mask: nat, low: uint16)
    requires id < low <= id + 16 && mask < Pow2(low - id - 1)
    ensures Followers(id, mask + Pow2(low - id - 1), 16) == Followers(id, mask, 16) + [low]
  {
    FollowersAppend(id, mask, low - id - 1, 16);
    assert Wrap16(low) == low;
  }

  lemma {:induction false} SamePair(s: Packing, last: uint16, low: uint16)
    requires Open(s, last) && last < low && low <= Wrap16(s.np.packetID + 16)
    ensures Reads(AddEntry(s, low)) == Reads(s) + [low]
    ensures Open(AddEntry(s, low), low)
  {
    hide PacketList, ReadPairs, Or, Pow2, OneShifted;
    var id, mask := s.np.packetID, s.np.lostPackets;
    var d := low - id - 1;
    Pow2Next(d);
    PairList(s.np);
    SameMask(s, last, low);
    PairList(NackPair(id, mask + Pow2(d)));
    SamePairList(id, mask, low);
    var np := NackPair(id, mask + Pow2(d));
    assert AddEntry(s, low) == Packing(s.done, np);
    assert PacketList(np) == PacketList(s.np) + [low];
    assert ReadPairs(s.done) + (PacketList(s.np) + [low]) == (ReadPairs(s.done) + PacketList(s.np)) + [low];
  }

  lemma {:induction false} Pow2Next(d: nat)
    ensures Pow2(d + 1) == 2 * Pow2(d)
  {
  }

  lemma {:induction false} PairList(p: NackPair)
    ensures PacketList(p) == [p.packetID] + Followers(p.packetID, p.lostPackets, 16)
  {
  }

  lemma {:induction false} EntryExact(s: Packing, last: uint16, low: uint16)
    requires Open(s, last) && last < low
    ensures Reads(AddEntry(s, low)) == Reads(s) + [low]
    ensures Open(AddEntry(s, low), low)
  {
    if low > Wrap16(s.np.packetID + 16) {
      NewPair(s, low);
    } else {
      SamePair(s, last, low);
    }
  }

  /** Nonzero entries of one cycle: the packing so far stands for exactly the entries so far. */
  lemma {:induction false} PackExact(sns: seq<nat>)
    requires sns != [] && StrictlyIncreasing(sns) && OneCycle(sns) && Low(sns[0]) > 0
    ensures Reads(PackEntries(sns)) == Lows(sns)
    ensures Open(PackEntries(sns), Low(sns[|sns| - 1]))
  {
    hide Reads, AddEntry, Open, Low;
    var front, last := sns[..|sns| - 1], sns[|sns| - 1];
    if front == [] {
      EmptyReads();
      NewPair(EMPTY, Low(last));
    } else {
      PackExact(front);
      LowsOrdered(front[|front| - 1], last);
      EntryExact(PackEntries(front), Low(front[|front| - 1]), Low(last));
    }
    assert Lows(sns) == Lows(front) + [Low(last)];
  }

  lemma {:induction false} EmptyReads()
    ensures Reads(EMPTY) == [] && Lows([]) == []
  {
  }

  lemma {:induction false} LowsOrdered(a: nat, b: nat)
    requires a < b && a / 0x1_0000 == b / 0x1_0000
    ensures Low(a) < Low(b)
  {
  }

  lemma {:induction false} ReadsPairs(s: Packing)
    ensures ReadPairs(if s.np.packetID != 0 then s.done + [s.np] else s.done) == Reads(s)
  {
    if s.np.packetID != 0 {
      assert (s.done + [s.np])[..|s.done|] == s.done;
    } else {
      assert ReadPairs(s.done) + [] == ReadPairs(s.done);
    }
  }

  /** A first entry whose low half is zero leaves no trace. */
  lemma {:induction false} ZeroFirst(sns: seq<nat>)
    requires sns != [] && Low(sns[0]) == 0
    ensures PackEntries(sns) == if |sns| == 1 then EMPTY else PackEntries(sns[1..])
  {
    if |sns| == 1 {
      assert sns[..0] == [];
    } else {
      var front := sns[..|sns| - 1];
      ZeroFirst(front);
      assert sns[1..][..|sns| - 2] == front[1..];
      if |front| == 1 {
        assert sns[1..][..0] == [];
      }
    }
  }

  /**
   For entries of one cycle in ascending order the pairs name exactly the entries, each
   once and in order, if and only if the first entry's low half is not zero.
   */
  lemma {:induction false} PairsExact(sns: seq<nat>)
    requires StrictlyIncreasing(sns) && OneCycle(sns)
    ensures ReadPairs(PairsOf(sns)) == Lows(sns) <==> sns == [] || Low(sns[0]) != 0
  {
    if sns == [] {
    } else if Low(sns[0]) != 0 {
      PackExact(sns);
      ReadsPairs(PackEntries(sns));
    } else {
      ZeroFirst(sns);
      if |sns| > 1 {
        var rest := sns[1..];
        LowsOrdered(sns[0], rest[0]);
        PackExact(rest);
        ReadsPairs(PackEntries(rest));
        assert |Lows(rest)| != |Lows(sns)|;
      }
    }
  }
}
