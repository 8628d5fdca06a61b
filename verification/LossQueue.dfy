/**
 The queue of numbers believed lost: a sorted, bounded list searched by bisection,
 shifted and compacted in place, that asks three times for each number and then gives up.
 */
module LossQueue {
  import opened Words
  import opened NackPairs

  const MAX_NACK_TIMES := 3
  const MAX_NACK_CACHE := 100

  datatype Nack = Nack(sn: uint32, nacked: uint8)

  // ---------------------------------------------------------------- the list as a value

  predicate Sorted(q: seq<Nack>) { forall i, j :: 0 <= i < j < |q| ==> q[i].sn <= q[j].sn }
  predicate Strict(q: seq<Nack>) { forall i, j :: 0 <= i < j < |q| ==> q[i].sn < q[j].sn }

  /** The first place whose number is at least sn. */
  function Position(q: seq<Nack>, sn: uint32): (i: nat)
    ensures i <= |q|
    ensures i < |q| ==> q[i].sn >= sn
    ensures i > 0 ==> q[i - 1].sn < sn
  {
    if q == [] || q[|q| - 1].sn < sn then |q| else Position(q[..|q| - 1], sn)
  }

  predicate Present(q: seq<Nack>, sn: uint32) {
    var i := Position(q, sn);
    i < |q| && q[i].sn == sn
  }

  function Inserted(q: seq<Nack>, sn: uint32): seq<Nack> {
    var i := Position(q, sn);
    q[..i] + [Nack(sn, 0)] + q[i..]
  }

  function Pushed(q: seq<Nack>, sn: uint32): seq<Nack> {
    if Present(q, sn) then q
    else if |q| + 1 > MAX_NACK_CACHE then Inserted(q, sn)[1..]
    else Inserted(q, sn)
  }

  function Removed(q: seq<Nack>, sn: uint32): seq<Nack> {
    var i := Position(q, sn);
    if Present(q, sn) then q[..i] + q[i + 1..] else q
  }

  /** The entries asked for again, each with its count raised. */
  function Survivors(q: seq<Nack>): seq<Nack> {
    if q == [] then []
    else
      var x := q[|q| - 1];
      Survivors(q[..|q| - 1]) + if x.nacked < MAX_NACK_TIMES then [Nack(x.sn, x.nacked + 1)] else []
  }

  /** The highest number given up so far. */
  function KeyFrameSN(q: seq<Nack>, kf: uint32): uint32 {
    if q == [] then kf
    else
      var x, k := q[|q| - 1], KeyFrameSN(q[..|q| - 1], kf);
      if x.nacked >= MAX_NACK_TIMES && x.sn > k then x.sn else k
  }

  function Numbers(q: seq<Nack>): (r: seq<nat>)
    ensures |r| == |q|
  {
    seq(|q|, i requires 0 <= i < |q| => q[i].sn as nat)
  }

  // ---------------------------------------------------------------- the queue as a value

  datatype State = State(nacks: seq<Nack>, counter: uint8, maxSN: uint16, kfSN: uint32, cycles: uint32)

  const EMPTY_STATE := State([], 0, 0, 0, 0)

  /** newNACKQueue makes a list that already has 101 zero entries. */
  const NEW_STATE := State(Repeated(MAX_NACK_CACHE + 1), 0, 0, 0, 0)

  function Repeated(n: nat): (r: seq<Nack>)
    ensures |r| == n
  {
    seq(n, _ => Nack(0, 0))
  }

  /** The tracking of the highest number and its cycle. */
  function Tracked(s: State, sn: uint16): State {
    if s.maxSN == 0 then s.(maxSN := sn)
    else if Wrap16(sn - s.maxSN) < 0x8000 then
      s.(maxSN := sn, cycles := if sn < s.maxSN then Wrap32(s.cycles + 0x1_0000) else s.cycles)
    else s
  }

  function Extended(s: State, sn: uint16): uint32 { Wrap32(Or(s.cycles, sn)) }

  function Push(s: State, sn: uint16): State {
    var t := Tracked(s, sn);
    var ext := Extended(t, sn);
    if Present(t.nacks, ext) then t
    else t.(nacks := Pushed(t.nacks, ext), counter := Wrap8(t.counter + 1))
  }

  function Remove(s: State, sn: uint16): State {
    s.(nacks := Removed(s.nacks, Extended(s, sn)))
  }

  /** Every third call or so is effective. */
  predicate Effective(s: State) { s.counter >= 2 }

  function Pairs(s: State): State {
    if !Effective(s) then s.(counter := s.counter + 1)
    else s.(counter := 0, nacks := Survivors(s.nacks), kfSN := KeyFrameSN(s.nacks, s.kfSN))
  }

  /** The numbers a call to pairs asks for. */
  function Reported(s: State): seq<nat> {
    if Effective(s) then Numbers(Survivors(s.nacks)) else []
  }

  // ---------------------------------------------------------------- the object

  class NackQueue {
    var nacks: seq<Nack>
    var counter: uint8
    var maxSN: uint16
    var kfSN: uint32
    var cycles: uint32

    ghost function Value(): State
      reads this
    {
      State(nacks, counter, maxSN, kfSN, cycles)
    }

    ghost predicate Valid()
      reads this
    {
      Sorted(nacks)
    }

    constructor ()
      ensures Valid() && Value() == NEW_STATE
    {
      nacks := Repeated(MAX_NACK_CACHE + 1);
      counter, maxSN, kfSN, cycles := 0, 0, 0, 0;
    }

    /** sort.Search: bisection for the first number at least sn. */
    method Search(sn: uint32) returns (i: nat)
      requires Valid()
      ensures i == Position(nacks, sn)
    {
      var lo, hi := 0, |nacks|;
      while lo < hi
        invariant lo <= hi <= |nacks|
        invariant forall k :: 0 <= k < lo ==> nacks[k].sn < sn
        invariant forall k :: hi <= k < |nacks| ==> nacks[k].sn >= sn
      {
        var mid := (lo + hi) / 2;
        if nacks[mid].sn >= sn {
          hi := mid;
        } else {
          lo := mid + 1;
        }
      }
      i := lo;
    }

    /** Opens a gap at i by shifting, stores the number there, and drops the smallest past the limit. */
    method InsertAt(i: nat, extSN: uint32)
      requires Valid() && i == Position(nacks, extSN) && !Present(nacks, extSN)
      modifies this`nacks
      ensures Valid() && nacks == Pushed(old(nacks), extSN)
    {
      PushedSorted(nacks, extSN);
      ShiftInsert(nacks, i, Nack(0, 0), Nack(extSN, 0));
      nacks := nacks + [Nack(0, 0)];
      nacks := nacks[..i + 1] + nacks[i..|nacks| - 1];
      nacks := nacks[i := Nack(extSN, 0)];
      if |nacks| > MAX_NACK_CACHE {
        nacks := nacks[1..];
      }
    }

    /** Follows the highest number and the cycle it belongs to. */
    method Track(sn: uint16)
      modifies this`maxSN, this`cycles
      ensures Value() == Tracked(old(Value()), sn)
    {
      if maxSN == 0 {
        maxSN := sn;
      } else if Wrap16(sn - maxSN) < 0x8000 {
        if sn < maxSN {
          cycles := Wrap32(cycles + 0x1_0000);
        }
        maxSN := sn;
      }
    }

    method PushSN(sn: uint16)
      requires Valid()
      modifies this
      ensures Valid() && Value() == Push(old(Value()), sn)
    {
      hide Sorted, Or, Pushed, Tracked, Position;
      Track(sn);
      var extSN := Wrap32(Or(cycles, sn));
      var i := Search(extSN);
      if i < |nacks| && nacks[i].sn == extSN {
        return;
      }
      InsertAt(i, extSN);
      counter := Wrap8(counter + 1);
    }

    method RemoveSN(sn: uint16)
      requires Valid()
      modifies this`nacks
      ensures Valid() && Value() == Remove(old(Value()), sn)
    {
      var extSN := Wrap32(Or(cycles, sn));
      var i := Search(extSN);
      if i >= |nacks| || nacks[i].sn != extSN {
        return;
      }
      nacks := nacks[..i] + nacks[i + 1..];
    }

    /** One pass over the list: live entries move down and into pairs, the others are given up. */
    method Compact() returns (nps: seq<NackPair>, np: NackPair, askKeyFrame: bool)
      modifies this`nacks, this`kfSN
      ensures nacks == Survivors(old(nacks)) && kfSN == KeyFrameSN(old(nacks), old(kfSN))
      ensures askKeyFrame <==> kfSN > old(kfSN)
      ensures Packing(nps, np) == PackEntries(Numbers(Survivors(old(nacks))))
    {
      hide Survivors, KeyFrameSN, Numbers, PackEntries, AddEntry;
      EmptyCompaction(kfSN);
      nps, np, askKeyFrame := [], NackPair(0, 0), false;
      var i := 0;
      ghost var q := nacks;
      for k := 0 to |nacks|
        invariant |nacks| == |q| && i <= k && nacks[k..] == q[k..]
        invariant Compacted(q[..k], i, old(kfSN), askKeyFrame)
        invariant Packing(nps, np) == PackEntries(Numbers(Survivors(q[..k])))
      {
        var nck := nacks[k];
        SurvivorsStep(q, k, old(kfSN));
        if nck.nacked >= MAX_NACK_TIMES {
          if nck.sn > kfSN {
            kfSN := nck.sn;
            askKeyFrame := true;
          }
          continue;
        }
        NumbersStep(Survivors(q[..k]), Nack(nck.sn, nck.nacked + 1));
        nacks := nacks[i := Nack(nck.sn, nck.nacked + 1)];
        i := i + 1;
        nps, np := AddToPairs(nps, np, nck.sn);
      }
      assert q[..|q|] == q;
      nacks := nacks[..i];
    }

    /** Packs the live entries into pairs and compacts the list over the entries given up. */
    method PairsSN() returns (nps: seq<NackPair>, askKeyFrame: bool)
      requires Valid()
      modifies this
      ensures Valid() && Value() == Pairs(old(Value()))
      ensures nps == PairsOf(Reported(old(Value())))
      ensures askKeyFrame <==> kfSN > old(kfSN)
    {
      nps, askKeyFrame := [], false;
      if counter < 2 {
        counter := counter + 1;
        return;
      }
      counter := 0;
      SurvivorsSorted(nacks);
      var np;
      nps, np, askKeyFrame := Compact();
      if np.packetID != 0 {
        nps := nps + [np];
      }
    }

    /** The first i places hold the survivors of the entries looked at. */
    ghost predicate Compacted(looked: seq<Nack>, i: nat, kf: uint32, ask: bool)
      reads this
    {
      && i <= |nacks| && nacks[..i] == Survivors(looked)
      && kfSN == KeyFrameSN(looked, kf) && (ask <==> kfSN > kf)
    }

    /** One live entry goes into the pair being filled, or starts the next. */
    method AddToPairs(done: seq<NackPair>, open: NackPair, sn: uint32) returns (nps: seq<NackPair>, np: NackPair)
      ensures Packing(nps, np) == AddEntry(Packing(done, open), Low(sn))
    {
      nps, np := done, open;
      if np.packetID == 0 || Low(sn) > Wrap16(np.packetID + 16) {
        if np.packetID != 0 {
          nps := nps + [np];
        }
        np := NackPair(Low(sn), 0);
        return;
      }
      np := NackPair(np.packetID, Wrap16(Or(np.lostPackets, OneShifted(Wrap16(Low(sn) - np.packetID - 1)))));
    }
  }

  // ---------------------------------------------------------------- what the steps keep

  /** Appending a place, copying the tail one up and storing is insertion. */
  lemma {:induction false} ShiftInsert<T>(q: seq<T>, i: nat, place: T, x: T)
    requires i <= |q|
    ensures var r := q + [place];
            (r[..i + 1] + r[i..|q|])[i := x] == q[..i] + [x] + q[i..]
  {
  }

  lemma {:induction false} EmptyCompaction(kf: uint32)
    ensures Survivors([]) == [] && KeyFrameSN([], kf) == kf
    ensures PackEntries(Numbers(Survivors([]))) == Packing([], NackPair(0, 0))
  {
  }

  lemma {:induction false} SurvivorsStep(q: seq<Nack>, k: nat, kf: uint32)
    requires k < |q|
    ensures Survivors(q[..k + 1]) ==
            Survivors(q[..k]) + if q[k].nacked < MAX_NACK_TIMES then [Nack(q[k].sn, q[k].nacked + 1)] else []
    ensures KeyFrameSN(q[..k + 1], kf) ==
            if q[k].nacked >= MAX_NACK_TIMES && q[k].sn > KeyFrameSN(q[..k], kf) then q[k].sn else KeyFrameSN(q[..k], kf)
    ensures KeyFrameSN(q[..k], kf) >= kf
    decreases k
  {
    assert q[..k + 1][..k] == q[..k];
    if k > 0 {
      SurvivorsStep(q, k - 1, kf);
    }
  }

  lemma {:induction false} NumbersStep(q: seq<Nack>, x: Nack)
    ensures Numbers(q + [x]) == Numbers(q) + [x.sn as nat]
    ensures PackEntries(Numbers(q + [x])) == AddEntry(PackEntries(Numbers(q)), Low(x.sn))
  {
    assert Numbers(q + [x]) == Numbers(q) + [x.sn as nat];
    assert (Numbers(q) + [x.sn as nat])[..|q|] == Numbers(q);
  }

  lemma {:induction false} PositionSplits(q: seq<Nack>, sn: uint32)
    requires Sorted(q)
    ensures forall k :: 0 <= k < Position(q, sn) ==> q[k].sn < sn
    ensures forall k :: Position(q, sn) <= k < |q| ==> q[k].sn >= sn
  {
  }

  lemma {:induction false} InsertSorted(q: seq<Nack>, i: nat, x: Nack)
    requires i <= |q|
    requires forall k :: 0 <= k < i ==> q[k].sn < x.sn
    requires forall k :: i <= k < |q| ==> q[k].sn > x.sn
    ensures Sorted(q) ==> Sorted(q[..i] + [x] + q[i..])
    ensures Strict(q) ==> Strict(q[..i] + [x] + q[i..])
  {
  }

  lemma {:induction false} AbsentSplits(q: seq<Nack>, sn: uint32)
    requires Sorted(q) && !Present(q, sn)
    ensures forall k :: Position(q, sn) <= k < |q| ==> q[k].sn > sn
  {
    PositionSplits(q, sn);
  }

  lemma {:induction false} TailSorted(q: seq<Nack>)
    requires q != []
    ensures Sorted(q) ==> Sorted(q[1..])
    ensures Strict(q) ==> Strict(q[1..])
  {
  }

  /** Insertion and eviction keep the order, strict if it was. */
  lemma {:induction false} PushedSorted(q: seq<Nack>, sn: uint32)
    requires Sorted(q)
    ensures Sorted(Pushed(q, sn))
    ensures Strict(q) ==> Strict(Pushed(q, sn))
    ensures |Pushed(q, sn)| <= if |q| <= MAX_NACK_CACHE then MAX_NACK_CACHE else |q|
  {
    if !Present(q, sn) {
      PositionSplits(q, sn);
      AbsentSplits(q, sn);
      InsertSorted(q, Position(q, sn), Nack(sn, 0));
      TailSorted(Inserted(q, sn));
    }
  }

  lemma {:induction false} RemovedSorted(q: seq<Nack>, sn: uint32)
    requires Sorted(q)
    ensures Sorted(Removed(q, sn))
    ensures Strict(q) ==> Strict(Removed(q, sn))
    ensures |Removed(q, sn)| <= |q|
  {
  }

  /** Compaction keeps the order. */
  lemma {:induction false} SurvivorsSorted(q: seq<Nack>)
    ensures |Survivors(q)| <= |q|
    ensures Sorted(q) ==> Sorted(Survivors(q))
    ensures Strict(q) ==> Strict(Survivors(q))
  {
    if q == [] {
    } else {
      var front, last := q[..|q| - 1], q[|q| - 1];
      SurvivorsSorted(front);
      var s := Survivors(front);
      forall i | 0 <= i < |s| ensures (Sorted(q) ==> s[i].sn <= last.sn) && (Strict(q) ==> s[i].sn < last.sn) {
        SurvivorOrigin(front, i);
      }
    }
  }

  /** Every survivor was live, with one request fewer. */
  lemma {:induction false} SurvivorOrigin(q: seq<Nack>, i: nat)
    requires i < |Survivors(q)|
    ensures var x := Survivors(q)[i];
            1 <= x.nacked <= MAX_NACK_TIMES && Nack(x.sn, x.nacked - 1) in q
  {
    var front := q[..|q| - 1];
    if i < |Survivors(front)| {
      SurvivorOrigin(front, i);
    } else {
      var x := Survivors(q)[i];
      assert q[|q| - 1] == Nack(x.sn, x.nacked - 1);
    }
  }

  /** Compaction loses no live entry. */
  lemma {:induction false} LiveSurvives(q: seq<Nack>, x: Nack)
    requires x in q && x.nacked < MAX_NACK_TIMES
    ensures Nack(x.sn, x.nacked + 1) in Survivors(q)
  {
    if x != q[|q| - 1] {
      LiveSurvives(q[..|q| - 1], x);
    }
  }
}
