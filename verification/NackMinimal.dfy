/**
 How few pairs a request needs.  Away from the ends of the number space the packing is
 minimal; at its top, exactly unless several entries follow a window that starts there.
 */
module NackMinimal {
  import opened Words
  import opened NackPairs

  /** Numbers further apart than one pair can reach. */
  predicate FarApart(s: seq<uint16>) {
    forall i, j :: 0 <= i < j < |s| ==> s[i] as int + 16 < s[j] as int
  }

  predicate Named(ps: seq<NackPair>, x: uint16) {
    exists k :: 0 <= k < |ps| && x in PacketList(ps[k])
  }

  predicate Covers(ps: seq<NackPair>, s: seq<uint16>) {
    forall i :: 0 <= i < |s| ==> Named(ps, s[i])
  }

  /** How far after id a number comes, counting past the wrap. */
  function Reach(id: uint16, x: uint16): uint16 { Wrap16(x - id) }

  lemma {:induction false} FollowersNear(id: uint16, mask: nat, n: nat, x: uint16)
    requires n <= 16 && x in Followers(id, mask, n)
    ensures 1 <= Reach(id, x) <= n
  {
    if x in Followers(id, mask, n - 1) {
      FollowersNear(id, mask, n - 1, x);
    }
  }

  lemma {:induction false} ListNear(p: NackPair, x: uint16)
    requires x in PacketList(p)
    ensures Reach(p.packetID, x) <= 16
  {
    if x != p.packetID {
      FollowersNear(p.packetID, p.lostPackets, 16, x);
    }
  }

  /** No pair that wraps names a number at both ends: none is at the top, or none at the bottom. */
  predicate OneEnded(s: seq<uint16>) {
    (forall i :: 0 <= i < |s| ==> s[i] <= 65519) || (forall i :: 0 <= i < |s| ==> s[i] >= 16)
  }

  /** One pair, even one that wraps, cannot name two numbers that far apart away from one of the ends. */
  lemma {:induction false} OnePairOneStart(p: NackPair, a: uint16, b: uint16)
    requires a as int + 16 < b as int && (b <= 65519 || a >= 16)
    ensures !(a in PacketList(p) && b in PacketList(p))
  {
    if a in PacketList(p) && b in PacketList(p) {
      ListNear(p, a);
      ListNear(p, b);
      assert false;
    }
  }

  function Without(s: seq<uint16>, i: nat): (r: seq<uint16>)
    requires i < |s|
    ensures |r| == |s| - 1
    ensures forall j :: 0 <= j < |r| ==> r[j] == s[if j < i then j else j + 1]
  {
    s[..i] + s[i + 1..]
  }

  /** Numbers far apart need a pair each. */
  lemma {:induction false} FarApartNeedsPairs(starts: seq<uint16>, ps: seq<NackPair>)
    requires FarApart(starts) && Covers(ps, starts) && OneEnded(starts)
    ensures |starts| <= |ps|
  {
    if starts == [] {
    } else {
      assert Named(ps, starts[0]);
      var front, p := ps[..|ps| - 1], ps[|ps| - 1];
      if i :| 0 <= i < |starts| && starts[i] in PacketList(p) {
        var rest := Without(starts, i);
        forall j | 0 <= j < |rest| ensures Named(front, rest[j]) {
          var j' := if j < i then j else j + 1;
          OnlyStart(p, starts, i, j');
          NamedByFront(ps, starts[j']);
        }
        FarApartNeedsPairs(rest, front);
      } else {
        forall j | 0 <= j < |starts| ensures Named(front, starts[j]) {
          NamedByFront(ps, starts[j]);
        }
        FarApartNeedsPairs(starts, front);
      }
    }
  }

  lemma {:induction false} OnlyStart(p: NackPair, starts: seq<uint16>, i: nat, j: nat)
    requires FarApart(starts) && OneEnded(starts) && i < |starts| && j < |starts| && i != j
    requires starts[i] in PacketList(p)
    ensures starts[j] !in PacketList(p)
  {
    if i < j {
      OnePairOneStart(p, starts[i], starts[j]);
    } else {
      OnePairOneStart(p, starts[j], starts[i]);
    }
  }

  lemma {:induction false} NamedByFront(ps: seq<NackPair>, x: uint16)
    requires ps != [] && x !in PacketList(ps[|ps| - 1]) && Named(ps, x)
    ensures Named(ps[..|ps| - 1], x)
  {
    var k :| 0 <= k < |ps| && x in PacketList(ps[k]);
    assert ps[..|ps| - 1][k] == ps[k];
  }

  /** The first number of every pair written so far. */
  function Starts(sns: seq<nat>): seq<uint16> {
    var s := PackEntries(sns);
    IDs(if s.np.packetID != 0 then s.done + [s.np] else s.done)
  }

  function IDs(ps: seq<NackPair>): (r: seq<uint16>)
    ensures |r| == |ps|
  {
    seq(|ps|, i requires 0 <= i < |ps| => ps[i].packetID)
  }

  predicate FromEntries(starts: seq<uint16>, lows: seq<uint16>) {
    forall i :: 0 <= i < |starts| ==> starts[i] in lows
  }

  /** What the starts of the pairs keep while entries are added. */
  predicate GoodStarts(starts: seq<uint16>, s: Packing, lows: seq<uint16>) {
    && s.np.packetID != 0 && starts == IDs(s.done + [s.np])
    && FarApart(starts) && FromEntries(starts, lows)
  }

  lemma {:induction false} StartsStep(starts: seq<uint16>, s: Packing, lows: seq<uint16>, low: uint16)
    requires GoodStarts(starts, s, lows)
    requires s.np.packetID <= 65519 && s.np.packetID < low
    ensures var t := AddEntry(s, low);
            && GoodStarts(IDs(t.done + [t.np]), t, lows + [low])
            && t.np.packetID == if low > s.np.packetID + 16 then low else s.np.packetID
  {
    var t := AddEntry(s, low);
    assert starts[|starts| - 1] == s.np.packetID;
    if low > Wrap16(s.np.packetID + 16) {
      assert IDs(t.done + [t.np]) == starts + [low];
    } else {
      assert IDs(t.done + [t.np]) == starts;
    }
  }

  /** Below 65520 the pairs start at entries far apart. */
  lemma {:induction false} StartsFarApart(sns: seq<nat>)
    requires sns != [] && StrictlyIncreasing(sns) && OneCycle(sns) && Low(sns[0]) > 0
    requires forall i :: 0 <= i < |sns| ==> Low(sns[i]) <= 65519
    ensures GoodStarts(Starts(sns), PackEntries(sns), Lows(sns))
  {
    var front, low := sns[..|sns| - 1], Low(sns[|sns| - 1]);
    assert Lows(sns) == Lows(front) + [low];
    if front == [] {
      assert Starts(sns) == [low] == Lows(sns);
    } else {
      StartsFarApart(front);
      PackExact(front);
      LowsOrdered(front[|front| - 1], sns[|sns| - 1]);
      StartsStep(Starts(front), PackEntries(front), Lows(front), low);
    }
  }

  /** When no low half exceeds 65519, no set of pairs that names the entries is smaller. */
  lemma {:induction false} PairsMinimal(sns: seq<nat>, ps: seq<NackPair>)
    requires StrictlyIncreasing(sns) && OneCycle(sns) && (sns != [] ==> Low(sns[0]) > 0)
    requires forall i :: 0 <= i < |sns| ==> Low(sns[i]) <= 65519
    requires Covers(ps, Lows(sns))
    ensures |PairsOf(sns)| <= |ps|
  {
    if sns != [] {
      StartsFarApart(sns);
      var starts := Starts(sns);
      forall i | 0 <= i < |starts| ensures starts[i] <= 65519 && Named(ps, starts[i]) {
        var j :| 0 <= j < |sns| && Lows(sns)[j] == starts[i];
        assert Low(sns[j]) <= 65519;
      }
      FarApartNeedsPairs(starts, ps);
    }
  }

  // ---------------------------------------------------------------- at the top of the number space

  /**
   The first entry of the last window of seventeen numbers, when windows are laid greedily
   from the first entry on and none of them wraps.
   */
  function Anchor(sns: seq<nat>): uint16 {
    if sns == [] then 0
    else
      var a, x := Anchor(sns[..|sns| - 1]), Low(sns[|sns| - 1]);
      if |sns| == 1 || x as int > a as int + 16 then x else a
  }

  ghost predicate Minimal(sns: seq<nat>) {
    forall ps: seq<NackPair> :: Covers(ps, Lows(sns)) ==> |PairsOf(sns)| <= |ps|
  }

  /** Entries of one cycle, away from its bottom. */
  predicate AwayFromZero(sns: seq<nat>) {
    && StrictlyIncreasing(sns) && OneCycle(sns)
    && forall i :: 0 <= i < |sns| ==> Low(sns[i]) >= 16
  }

  lemma {:induction false} FrontAway(sns: seq<nat>)
    requires AwayFromZero(sns) && |sns| > 1
    ensures var front := sns[..|sns| - 1];
            && AwayFromZero(front) && Low(front[|front| - 1]) < Low(sns[|sns| - 1])
            && Lows(sns) == Lows(front) + [Low(sns[|sns| - 1])]
  {
    LowsOrdered(sns[|sns| - 2], sns[|sns| - 1]);
  }

  lemma {:induction false} AnchorBelow(sns: seq<nat>)
    requires sns != [] && AwayFromZero(sns)
    ensures 16 <= Anchor(sns) <= Low(sns[|sns| - 1]) <= Anchor(sns) + 16
  {
    if |sns| > 1 {
      FrontAway(sns);
      AnchorBelow(sns[..|sns| - 1]);
    }
  }

  /** Until a window starts above 65519 the pairs are the windows. */
  lemma {:induction false} PairsAreWindows(sns: seq<nat>)
    requires sns != [] && AwayFromZero(sns) && Anchor(sns[..|sns| - 1]) <= 65519
    ensures GoodStarts(Starts(sns), PackEntries(sns), Lows(sns))
    ensures PackEntries(sns).np.packetID == Anchor(sns)
  {
    hide AddEntry, AwayFromZero, FarApart, FromEntries;
    var front, low := sns[..|sns| - 1], Low(sns[|sns| - 1]);
    FirstIsAway(sns);
    if |sns| == 1 {
      OneWindow(sns);
    } else {
      FrontAway(sns);
      PairsAreWindows(front);
      AnchorBelow(front);
      StartsStep(Starts(front), PackEntries(front), Lows(front), low);
    }
  }

  lemma {:induction false} OneWindow(sns: seq<nat>)
    requires |sns| == 1 && Low(sns[0]) > 0
    ensures GoodStarts(Starts(sns), PackEntries(sns), Lows(sns))
    ensures PackEntries(sns).np.packetID == Low(sns[0])
  {
    assert sns[..0] == [];
    assert PackEntries(sns) == AddEntry(EMPTY, Low(sns[0]));
    assert Starts(sns) == [Low(sns[0])] == Lows(sns);
  }

  lemma {:induction false} FirstIsAway(sns: seq<nat>)
    requires sns != [] && AwayFromZero(sns)
    ensures Low(sns[|sns| - 1]) >= 16
  {
  }

  lemma {:induction false} MinimalWhileWindows(sns: seq<nat>, ps: seq<NackPair>)
    requires sns != [] && AwayFromZero(sns) && Anchor(sns[..|sns| - 1]) <= 65519
    requires Covers(ps, Lows(sns))
    ensures |PairsOf(sns)| <= |ps|
  {
    PairsAreWindows(sns);
    AnchorBelow(sns);
    var starts := Starts(sns);
    forall i | 0 <= i < |starts| ensures starts[i] >= 16 && Named(ps, starts[i]) {
      var j :| 0 <= j < |sns| && Lows(sns)[j] == starts[i];
      assert Low(sns[j]) >= 16;
    }
    FarApartNeedsPairs(starts, ps);
  }

  lemma {:induction false} AllOnes(i: nat, m: nat)
    requires i < m
    ensures Bit(Pow2(m) - 1, i)
  {
    assert Pow2(m) == 2 * Pow2(m - 1);
    if i > 0 {
      AllOnes(i - 1, m - 1);
    }
  }

  lemma {:induction false} FollowersHave(id: uint16, mask: nat, n: nat, k: nat)
    requires 1 <= k <= n && Bit(mask, k - 1)
    ensures Wrap16(id + k) in Followers(id, mask, n)
  {
    if k < n {
      FollowersHave(id, mask, n - 1, k);
    }
  }

  /** One pair can name all sixteen numbers after its own. */
  lemma {:induction false} FullPairNames(id: uint16, x: uint16)
    requires id <= x <= id + 16
    ensures x in PacketList(NackPair(id, 0xffff))
  {
    if x > id {
      Pow2Sixteen();
      AllOnes(x - id - 1, 16);
      FollowersHave(id, 0xffff, 16, x - id);
    }
  }

  lemma {:induction false} ReadIsNamed(ps: seq<NackPair>, x: uint16)
    requires x in ReadPairs(ps)
    ensures Named(ps, x)
  {
    var front := ps[..|ps| - 1];
    if x in ReadPairs(front) {
      ReadIsNamed(front, x);
      NamedOn(front, ps[|ps| - 1], x);
      assert front + [ps[|ps| - 1]] == ps;
    } else {
      assert x in PacketList(ps[|ps| - 1]);
    }
  }

  lemma {:induction false} NamedOn(ps: seq<NackPair>, p: NackPair, x: uint16)
    ensures Named(ps, x) || x in PacketList(p) ==> Named(ps + [p], x)
  {
    if k :| 0 <= k < |ps| && x in PacketList(ps[k]) {
      assert (ps + [p])[k] == ps[k];
    }
    if x in PacketList(p) {
      assert (ps + [p])[|ps|] == p;
    }
  }

  lemma {:induction false} PairsCover(sns: seq<nat>)
    requires AwayFromZero(sns)
    ensures Covers(PairsOf(sns), Lows(sns))
  {
    if sns != [] {
      PairsExact(sns);
      forall i | 0 <= i < |sns| ensures Named(PairsOf(sns), Lows(sns)[i]) {
        ReadIsNamed(PairsOf(sns), Lows(sns)[i]);
      }
    }
  }

  lemma {:induction false} CoverOneMore(ps: seq<NackPair>, s: seq<uint16>, p: NackPair, x: uint16)
    requires Covers(ps, s) && (x in PacketList(p) || Named(ps, x))
    ensures Covers(ps + [p], s + [x])
  {
    forall i | 0 <= i < |s + [x]| ensures Named(ps + [p], (s + [x])[i]) {
      NamedOn(ps, p, (s + [x])[i]);
    }
  }

  /** From the first window above 65519 on, every entry starts a pair of its own. */
  lemma {:induction false} TopPairs(sns: seq<nat>) returns (ps: seq<NackPair>, extra: nat)
    requires sns != [] && AwayFromZero(sns) && Anchor(sns) > 65519
    ensures Covers(ps + [NackPair(Anchor(sns), 0xffff)], Lows(sns))
    ensures |PairsOf(sns)| == |ps| + 1 + extra
    ensures extra == 0 <==> Low(sns[|sns| - 1]) == Anchor(sns)
    ensures PackEntries(sns).np.packetID == Low(sns[|sns| - 1])
  {
    hide PackEntries, PairsOf, PacketList, Covers, AwayFromZero;
    var front, x := sns[..|sns| - 1], Low(sns[|sns| - 1]);
    FirstIsAway(sns);
    AnchorBelow(sns);
    FullPairNames(Anchor(sns), x);
    if |sns| == 1 {
      ps, extra := [], 0;
      OneWindow(sns);
      OnePair(sns);
      NothingToCover();
      CoverOneMore([], [], NackPair(x, 0xffff), x);
      assert Lows(sns) == [] + [x];
    } else {
      FrontAway(sns);
      AnchorBelow(front);
      if Anchor(front) > 65519 {
        ps, extra := TopPairs(front);
        extra := extra + 1;
        OpensPair(sns);
        CoverOneHeld(ps, NackPair(Anchor(sns), 0xffff), Lows(front), x);
      } else {
        ps, extra := PairsOf(front), 0;
        AnchorBefore(front);
        PairsAreWindows(front);
        OpensPair(sns);
        PairsCover(front);
        CoverOneMore(ps, Lows(front), NackPair(x, 0xffff), x);
      }
    }
  }

  lemma {:induction false} OnePair(sns: seq<nat>)
    requires |sns| == 1 && Low(sns[0]) > 0
    ensures |PairsOf(sns)| == 1
  {
    assert sns[..0] == [];
    assert PackEntries(sns) == AddEntry(EMPTY, Low(sns[0]));
  }

  lemma {:induction false} OpensPair(sns: seq<nat>)
    requires |sns| > 1 && Low(sns[|sns| - 1]) > 0
    requires var id := PackEntries(sns[..|sns| - 1]).np.packetID;
             id != 0 && Low(sns[|sns| - 1]) > Wrap16(id + 16)
    ensures PackEntries(sns).np.packetID == Low(sns[|sns| - 1])
    ensures |PairsOf(sns)| == |PairsOf(sns[..|sns| - 1])| + 1
  {
  }

  lemma {:induction false} NothingToCover()
    ensures Covers([], [])
  {
  }

  lemma {:induction false} CoverOneHeld(ps: seq<NackPair>, p: NackPair, s: seq<uint16>, x: uint16)
    requires Covers(ps + [p], s) && x in PacketList(p)
    ensures Covers(ps + [p], s + [x])
  {
    forall i | 0 <= i < |s + [x]| ensures Named(ps + [p], (s + [x])[i]) {
      if i == |s| {
        NamedOn(ps, p, x);
      } else {
        assert Named(ps + [p], s[i]);
      }
    }
  }

  /** Windows only move up. */
  lemma {:induction false} AnchorBefore(sns: seq<nat>)
    requires sns != [] && AwayFromZero(sns)
    ensures Anchor(sns[..|sns| - 1]) <= Anchor(sns)
  {
    if |sns| > 1 {
      FrontAway(sns);
      AnchorBelow(sns[..|sns| - 1]);
    }
  }

  /**
   Away from the bottom of the number space the packing is minimal if and only if the last
   window starts at or below 65519, or at the last entry: otherwise the reach test wraps
   and each entry after it takes a pair that one pair would have named.
   */
  lemma {:induction false} MinimalUnlessTop(sns: seq<nat>)
    requires sns != [] && AwayFromZero(sns)
    ensures Minimal(sns) <==> Anchor(sns) <= 65519 || Anchor(sns) == Low(sns[|sns| - 1])
  {
    hide Covers, Anchor, AwayFromZero, PairsOf, PackEntries;
    AnchorBelow(sns);
    if Anchor(sns) <= 65519 || Anchor(sns) == Low(sns[|sns| - 1]) {
      AnchorBefore(sns);
      if Anchor(sns) == Low(sns[|sns| - 1]) {
        TopAlone(sns);
      }
      forall ps: seq<NackPair> | Covers(ps, Lows(sns)) ensures |PairsOf(sns)| <= |ps| {
        MinimalWhileWindows(sns, ps);
      }
    } else {
      var ps, extra := TopPairs(sns);
      var fewer := ps + [NackPair(Anchor(sns), 0xffff)];
      assert Covers(fewer, Lows(sns)) && |fewer| < |PairsOf(sns)|;
    }
  }

  lemma {:induction false} TopAlone(sns: seq<nat>)
    requires sns != [] && AwayFromZero(sns) && Anchor(sns) == Low(sns[|sns| - 1])
    ensures Anchor(sns[..|sns| - 1]) <= 65519
  {
    if |sns| > 1 {
      FrontAway(sns);
      AnchorBelow(sns[..|sns| - 1]);
    }
  }

  lemma {:induction false} TwoAtTheTop()
    ensures PackEntries([65520, 65521]) == Packing([NackPair(65520, 0)], NackPair(65521, 0))
  {
    var one: seq<nat>, two: seq<nat> := [65520], [65520, 65521];
    assert one[..0] == [] && two[..1] == one;
    assert PackEntries(one) == AddEntry(EMPTY, 65520);
    assert AddEntry(EMPTY, 65520) == Packing([], NackPair(65520, 0));
  }

  /** The smallest case: two neighbours take two pairs where one names both. */
  lemma {:induction false} NotMinimalAtTheTop()
    ensures |PairsOf([65520, 65521])| == 2
    ensures PacketList(NackPair(65520, 1)) == [65520, 65521]
  {
    TwoAtTheTop();
    assert Pow2(0) == 1;
    FollowersAppend(65520, 0, 0, 16);
    NoFollowers(65520, 16);
  }
}
