/**
 What the loss queue asks for over whole runs from newNACKQueue, whose 101 equal entries
 are no set of numbers yet: they leave no trace, and what is pushed later is asked for
 exactly.
 */
module LossRequests {
  import opened Words
  import opened NackPairs
  import opened NackWrap
  import opened LossQueue
  import opened LossQueueRuns

  // ---------------------------------------------------------------- order

  /** Ascending, and no number twice but zero. */
  predicate Spread(q: seq<Nack>) {
    forall i, j :: 0 <= i < j < |q| ==> q[i].sn < q[j].sn || q[i].sn == q[j].sn == 0
  }

  lemma {:induction false} SpreadIsSorted(q: seq<Nack>)
    requires Spread(q)
    ensures Sorted(q)
    ensures forall y: uint32 :: y > 0 ==> Single(q, y)
  {
  }

  lemma {:induction false} InsertedSpread(q: seq<Nack>, i: nat, x: Nack)
    requires Spread(q) && i <= |q|
    requires forall k :: 0 <= k < i ==> q[k].sn < x.sn
    requires forall k :: i <= k < |q| ==> q[k].sn > x.sn
    ensures Spread(q[..i] + [x] + q[i..])
  {
  }

  lemma {:induction false} PushedSpread(q: seq<Nack>, sn: uint32)
    requires Spread(q)
    ensures Spread(Pushed(q, sn))
  {
    SpreadIsSorted(q);
    if !Present(q, sn) {
      hide Spread, Sorted;
      PositionSplits(q, sn);
      AbsentSplits(q, sn);
      InsertedSpread(q, Position(q, sn), Nack(sn, 0));
      TailSpread(Inserted(q, sn));
    }
  }

  lemma {:induction false} TailSpread(q: seq<Nack>)
    requires q != [] && Spread(q)
    ensures Spread(q[1..])
  {
  }

  lemma {:induction false} RemovedSpread(q: seq<Nack>, sn: uint32)
    requires Spread(q)
    ensures Spread(Removed(q, sn))
  {
  }

  lemma {:induction false} SurvivorsSpread(q: seq<Nack>)
    requires Spread(q)
    ensures Spread(Survivors(q))
  {
    if q != [] {
      var front, last := q[..|q| - 1], q[|q| - 1];
      SurvivorsSpread(front);
      var s := Survivors(front);
      forall i | 0 <= i < |s| ensures s[i].sn < last.sn || s[i].sn == last.sn == 0 {
        SurvivorOrigin(front, i);
      }
    }
  }

  lemma {:induction false} StepSpread(s: State, op: Op)
    requires Spread(s.nacks)
    ensures Spread(Apply(s, op).nacks)
  {
    hide Or, Position, Pushed, Removed, Survivors, KeyFrameSN, Spread, Wrap32, Wrap8;
    match op
    case PushOp(sn) => PushedSpread(s.nacks, Extended(Tracked(s, sn), sn));
    case RemoveOp(sn) => RemovedSpread(s.nacks, Extended(s, sn));
    case PairsOp => SurvivorsSpread(s.nacks);
  }

  lemma {:induction false} RunSpread(s: State, ops: seq<Op>)
    requires Spread(s.nacks)
    ensures Spread(RunOps(s, ops).nacks)
    decreases |ops|
  {
    hide Spread, Apply;
    if ops != [] {
      StepSpread(s, ops[0]);
      RunSpread(Apply(s, ops[0]), ops[1..]);
    }
  }

  // ---------------------------------------------------------------- the numbers asked for

  /** An entry for y has been asked for fewer than three times. */
  predicate Pending(q: seq<Nack>, y: nat) {
    exists i :: 0 <= i < |q| && q[i].nacked < MAX_NACK_TIMES && q[i].sn == y
  }

  /** The numbers pending, in order, without the zeros that newNACKQueue makes. */
  function Wanted(q: seq<Nack>): seq<nat> {
    if q == [] then []
    else
      var x := q[|q| - 1];
      Wanted(q[..|q| - 1]) + if x.nacked < MAX_NACK_TIMES && x.sn > 0 then [x.sn as nat] else []
  }

  lemma {:induction false} WantedIsPending(q: seq<Nack>, y: nat)
    ensures y in Wanted(q) <==> y > 0 && Pending(q, y)
  {
    if q != [] {
      var front, x := q[..|q| - 1], q[|q| - 1];
      WantedIsPending(front, y);
      PendingStep(q, y);
    }
  }

  lemma {:induction false} PendingStep(q: seq<Nack>, y: nat)
    requires q != []
    ensures var front, x := q[..|q| - 1], q[|q| - 1];
            Pending(q, y) <==> Pending(front, y) || (x.nacked < MAX_NACK_TIMES && x.sn == y)
  {
    var front, x := q[..|q| - 1], q[|q| - 1];
    if i :| 0 <= i < |front| && front[i].nacked < MAX_NACK_TIMES && front[i].sn == y {
      assert q[i] == front[i];
    }
    if x.nacked < MAX_NACK_TIMES && x.sn == y {
      assert q[|q| - 1].sn == y;
    }
    if i :| 0 <= i < |q| - 1 && q[i].nacked < MAX_NACK_TIMES && q[i].sn == y {
      assert front[i] == q[i];
    }
  }

  /** Every number wanted belongs to an entry. */
  lemma {:induction false} WantedEntry(q: seq<Nack>, i: nat)
    requires i < |Wanted(q)|
    ensures exists k :: 0 <= k < |q| && q[k].sn as nat == Wanted(q)[i] > 0
  {
    var y := Wanted(q)[i];
    assert y in Wanted(q);
    WantedIsPending(q, y);
  }

  lemma {:induction false} WantedAscends(q: seq<Nack>)
    requires Spread(q)
    ensures StrictlyIncreasing(Wanted(q))
  {
    if q != [] {
      var front, x := q[..|q| - 1], q[|q| - 1];
      WantedAscends(front);
      var w := Wanted(front);
      forall i | 0 <= i < |w| ensures x.sn > 0 ==> w[i] < x.sn {
        WantedEntry(front, i);
        var k :| 0 <= k < |front| && front[k].sn as nat == w[i] > 0;
        assert q[k] == front[k];
      }
    }
  }

  /** Entries of number zero come first and leave no trace in the pairs. */
  lemma {:induction false} ZerosVanish(q: seq<Nack>)
    requires Sorted(q)
    ensures PackEntries(Numbers(Survivors(q))) == PackEntries(Wanted(q))
  {
    hide AddEntry, Numbers, Sorted, Survivors, Wanted, PackEntries, Low;
    if q == [] {
      NothingLeft();
    } else {
      var front, x := q[..|q| - 1], q[|q| - 1];
      FrontSorted(q);
      ZerosVanish(front);
      LastStep(q);
      if x.nacked < MAX_NACK_TIMES {
        NumbersStep(Survivors(front), Nack(x.sn, x.nacked + 1));
        if x.sn > 0 {
          AppendPacked(Wanted(front), x.sn);
        } else {
          UpToZero(q);
          OnlyZeros(front);
          ZeroAdded();
        }
      }
    }
  }

  lemma {:induction false} NothingLeft()
    ensures Numbers(Survivors([])) == Wanted([]) == []
  {
  }

  lemma {:induction false} LastStep(q: seq<Nack>)
    requires q != []
    ensures var front, x := q[..|q| - 1], q[|q| - 1];
            && Survivors(q) == (if x.nacked < MAX_NACK_TIMES then Survivors(front) + [Nack(x.sn, x.nacked + 1)] else Survivors(front))
            && Wanted(q) == if x.nacked < MAX_NACK_TIMES && x.sn > 0 then Wanted(front) + [x.sn as nat] else Wanted(front)
  {
  }

  lemma {:induction false} FrontSorted(q: seq<Nack>)
    requires q != [] && Sorted(q)
    ensures Sorted(q[..|q| - 1])
  {
  }

  lemma {:induction false} UpToZero(q: seq<Nack>)
    requires q != [] && Sorted(q) && q[|q| - 1].sn == 0
    ensures forall i :: 0 <= i < |q| ==> q[i].sn == 0
  {
  }

  lemma {:induction false} AppendPacked(w: seq<nat>, x: nat)
    ensures PackEntries(w + [x]) == AddEntry(PackEntries(w), Low(x))
  {
    hide AddEntry;
    assert (w + [x])[..|w|] == w;
  }

  lemma {:induction false} ZeroAdded()
    ensures AddEntry(EMPTY, Low(0)) == EMPTY && PackEntries([]) == EMPTY
  {
  }

  lemma {:induction false} OnlyZeros(q: seq<Nack>)
    requires forall i :: 0 <= i < |q| ==> q[i].sn == 0
    ensures Wanted(q) == []
  {
    if q != [] {
      OnlyZeros(q[..|q| - 1]);
    }
  }

  // ---------------------------------------------------------------- requests

  /**
   An effective request asks for exactly the numbers wanted, each once and in order, when
   they are less than a cycle apart if and only if the packing loses none.
   */
  lemma {:induction false} RequestExact(s: State)
    requires Spread(s.nacks) && Effective(s)
    ensures PairsOf(Reported(s)) == PairsOf(Wanted(s.nacks)) && StrictlyIncreasing(Wanted(s.nacks))
    ensures Near(Wanted(s.nacks)) ==>
              (ReadPairs(PairsOf(Reported(s))) == Lows(Wanted(s.nacks)) <==> Packable(Wanted(s.nacks)))
  {
    hide Spread, Packable, Near, Wanted, PackEntries, Survivors, ReadPairs;
    SpreadIsSorted(s.nacks);
    WantedAscends(s.nacks);
    ZerosVanish(s.nacks);
    if Near(Wanted(s.nacks)) {
      PairsAcrossWrap(Wanted(s.nacks));
    }
  }

  predicate Below(q: seq<Nack>, top: nat) { forall i :: 0 <= i < |q| ==> q[i].sn < top }

  lemma {:induction false} WantedBelow(q: seq<Nack>)
    requires Spread(q) && Below(q, 0x1_0000)
    ensures var w := Wanted(q);
            && Near(w) && Packable(w)
            && forall i :: 0 <= i < |w| ==> 0 < w[i] < 0x1_0000
  {
    hide Spread, Wanted;
    var w := Wanted(q);
    WantedAscends(q);
    forall i | 0 <= i < |w| ensures 0 < w[i] < 0x1_0000 {
      WantedEntry(q, i);
    }
    FirstCycleNear(w);
  }

  lemma {:induction false} FirstCycleNear(w: seq<nat>)
    requires StrictlyIncreasing(w) && forall i :: 0 <= i < |w| ==> 0 < w[i] < 0x1_0000
    ensures Near(w) && Packable(w)
  {
    assert OneCycle(w);
    CycleIsNear(w);
  }

  /** In the first cycle nothing is lost: the numbers named are the numbers wanted themselves. */
  lemma {:induction false} FirstCycleRequest(s: State)
    requires Spread(s.nacks) && Below(s.nacks, 0x1_0000) && Effective(s)
    ensures ReadPairs(PairsOf(Reported(s))) == Lows(Wanted(s.nacks))
    ensures forall i :: 0 <= i < |Wanted(s.nacks)| ==> Lows(Wanted(s.nacks))[i] as nat == Wanted(s.nacks)[i]
  {
    hide Packable, Near, Wanted, Spread, Below, PairsOf, ReadPairs, Survivors, Low;
    RequestExact(s);
    WantedBelow(s.nacks);
    LowsThemselves(Wanted(s.nacks));
  }

  lemma {:induction false} LowsThemselves(w: seq<nat>)
    requires forall i :: 0 <= i < |w| ==> 0 < w[i] < 0x1_0000
    ensures forall i :: 0 <= i < |w| ==> Lows(w)[i] as nat == w[i]
  {
  }

  /** The run stays in the first cycle. */
  predicate Unwrapped(s: State, ops: seq<Op>)
    decreases |ops|
  {
    s.cycles == 0 && (ops == [] || Unwrapped(Apply(s, ops[0]), ops[1..]))
  }

  lemma {:induction false} StepBelow(s: State, op: Op)
    requires Below(s.nacks, 0x1_0000) && Apply(s, op).cycles == 0
    ensures Below(Apply(s, op).nacks, 0x1_0000)
  {
    hide Or, Position, Pushed, Removed, Survivors, KeyFrameSN, Below, Wrap32, Wrap8;
    match op
    case PushOp(sn) =>
      FirstCycleNumber(Tracked(s, sn), sn);
      PushedUnder(s.nacks, sn, 0x1_0000);
    case RemoveOp(sn) => RemovedUnder(s.nacks, Extended(s, sn), 0x1_0000);
    case PairsOp => SurvivorsUnder(s.nacks, 0x1_0000);
  }

  lemma {:induction false} FirstCycleNumber(s: State, sn: uint16)
    requires s.cycles == 0
    ensures Extended(s, sn) == sn
  {
  }

  lemma {:induction false} PushedUnder(q: seq<Nack>, sn: uint32, top: nat)
    requires Below(q, top) && sn < top
    ensures Below(Pushed(q, sn), top)
  {
  }

  lemma {:induction false} RemovedUnder(q: seq<Nack>, sn: uint32, top: nat)
    requires Below(q, top)
    ensures Below(Removed(q, sn), top)
  {
  }

  lemma {:induction false} SurvivorsUnder(q: seq<Nack>, top: nat)
    requires Below(q, top)
    ensures Below(Survivors(q), top)
  {
    if q != [] {
      SurvivorsUnder(q[..|q| - 1], top);
    }
  }

  lemma {:induction false} RunBelow(s: State, ops: seq<Op>)
    requires Below(s.nacks, 0x1_0000) && Unwrapped(s, ops)
    ensures Below(RunOps(s, ops).nacks, 0x1_0000)
    decreases |ops|
  {
    hide Below, Apply;
    if ops != [] {
      StepBelow(s, ops[0]);
      RunBelow(Apply(s, ops[0]), ops[1..]);
    }
  }

  lemma {:induction false} NewSpread()
    ensures Spread(NEW_STATE.nacks) && Below(NEW_STATE.nacks, 0x1_0000)
  {
  }

  /**
   Over every run from newNACKQueue that stays in the first cycle, an effective request
   names exactly the nonzero numbers in the queue that were asked for fewer than three
   times, each once and in ascending order.
   */
  lemma {:induction false} RunRequestExact(ops: seq<Op>)
    requires Unwrapped(NEW_STATE, ops) && Effective(RunOps(NEW_STATE, ops))
    ensures var s := RunOps(NEW_STATE, ops);
            var named := ReadPairs(PairsOf(Reported(s)));
            && (forall i, j :: 0 <= i < j < |named| ==> named[i] < named[j])
            && (forall y: uint16 :: y in named <==> y > 0 && Pending(s.nacks, y))
  {
    hide Spread, Below, Apply, Wanted, Pending;
    var s := RunOps(NEW_STATE, ops);
    NewSpread();
    RunSpread(NEW_STATE, ops);
    RunBelow(NEW_STATE, ops);
    NamedExactly(s);
  }

  lemma {:induction false} NamedExactly(s: State)
    requires Spread(s.nacks) && Below(s.nacks, 0x1_0000) && Effective(s)
    ensures var named := ReadPairs(PairsOf(Reported(s)));
            && (forall i, j :: 0 <= i < j < |named| ==> named[i] < named[j])
            && (forall y: uint16 :: y in named <==> y > 0 && Pending(s.nacks, y))
  {
    hide Spread, Below, Wanted, Pending, ReadPairs, PairsOf;
    var w := Wanted(s.nacks);
    FirstCycleRequest(s);
    WantedAscends(s.nacks);
    forall y: uint16 ensures y in Lows(w) <==> y > 0 && Pending(s.nacks, y) {
      WantedIsPending(s.nacks, y);
      if y as nat in w {
        var i :| 0 <= i < |w| && w[i] == y;
        assert Lows(w)[i] == y;
      }
    }
  }

  // ---------------------------------------------------------------- requests for nothing

  /** No pair is written exactly when no entry has a low half other than zero. */
  lemma {:induction false} NoPairs(sns: seq<nat>)
    ensures PackEntries(sns).np.packetID == 0 <==> forall i :: 0 <= i < |sns| ==> Low(sns[i]) == 0
    ensures PackEntries(sns).np.packetID == 0 ==> PackEntries(sns).done == []
    ensures PairsOf(sns) == [] <==> forall i :: 0 <= i < |sns| ==> Low(sns[i]) == 0
  {
    if sns != [] {
      hide Or, Low, OneShifted;
      var front := sns[..|sns| - 1];
      NoPairs(front);
      assert forall i :: 0 <= i < |front| ==> front[i] == sns[i];
    }
  }

  /** A request names something exactly when a pending entry has a nonzero low half. */
  lemma {:induction false} SomethingNamed(s: State)
    requires Effective(s)
    ensures PairsOf(Reported(s)) != [] <==> exists y: uint32 :: Pending(s.nacks, y) && Low(y) != 0
  {
    hide Low, PairsOf;
    var q := s.nacks;
    var n := Numbers(Survivors(q));
    NoPairs(n);
    if i :| 0 <= i < |n| && Low(n[i]) != 0 {
      SurvivorOrigin(q, i);
      var x := Survivors(q)[i];
      assert Pending(q, x.sn);
    }
    if y: uint32 :| Pending(q, y) && Low(y) != 0 {
      var k :| 0 <= k < |q| && q[k].nacked < MAX_NACK_TIMES && q[k].sn == y;
      LiveSurvives(q, q[k]);
      var i :| 0 <= i < |Survivors(q)| && Survivors(q)[i] == Nack(y, q[k].nacked + 1);
      assert Low(n[i]) != 0;
    }
  }
}
