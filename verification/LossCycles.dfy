/**
 The loss queue across wraps of the sixteen-bit numbers: which true number an entry stands
 for, when the cycle is tracked rightly, and when a number recovered late is not found.
 */
module LossCycles {
  import opened Words
  import opened NackPairs
  import opened LossQueue
  import opened LossQueueRuns

  /** A number lost, a number recovered, or a call, by true number. */
  datatype Call = Lose(number: nat) | Recover(number: nat) | Ask

  function OpOf(c: Call): Op {
    match c
    case Lose(x) => PushOp(Wrap16(x))
    case Recover(x) => RemoveOp(Wrap16(x))
    case Ask => PairsOp
  }

  function StateAfter(calls: seq<Call>): State {
    if calls == [] then NEW_STATE else Apply(StateAfter(calls[..|calls| - 1]), OpOf(calls[|calls| - 1]))
  }

  function Max(a: nat, b: nat): nat { if a >= b then a else b }

  /** The highest number lost so far. */
  function Highest(calls: seq<Call>): nat {
    if calls == [] then 0
    else if calls[|calls| - 1].Lose? then Max(Highest(calls[..|calls| - 1]), calls[|calls| - 1].number)
    else Highest(calls[..|calls| - 1])
  }

  /** Highest number and cycle are those of the true number max. */
  predicate Tied(s: State, max: nat) {
    s.maxSN == Wrap16(max) && s.cycles == Wrap32(max / 0x1_0000 * 0x1_0000)
  }

  /** A loss that is tracked: near the highest so far, or, when that has a zero low half, after it in its cycle. */
  predicate Trackable(max: nat, x: nat) {
    if max % 0x1_0000 == 0 then max <= x < max + 0x1_0000 else -0x8000 <= x - max < 0x8000
  }

  /** The number a loss or recovery of x is entered or looked for under, when max is the highest lost. */
  function FiledAs(max: nat, x: nat): int { max / 0x1_0000 * 0x1_0000 + x % 0x1_0000 }

  // ---------------------------------------------------------------- one loss

  lemma {:induction false} NextCycle(max: nat, x: nat)
    requires -0x8000 <= x - max < 0x8000
    ensures Wrap16(Wrap16(x) - Wrap16(max)) < 0x8000 <==> x >= max
    ensures x >= max ==> x / 0x1_0000 == max / 0x1_0000 + if Wrap16(x) < Wrap16(max) then 1 else 0
  {
  }

  lemma {:induction false} CycleUp(q: nat)
    ensures Wrap32(Wrap32(q * 0x1_0000) + 0x1_0000) == Wrap32((q + 1) * 0x1_0000)
  {
  }

  lemma {:induction false} SameCycleAfterZero(max: nat, x: nat)
    requires max % 0x1_0000 == 0 && max <= x < max + 0x1_0000
    ensures x / 0x1_0000 == max / 0x1_0000
  {
  }

  lemma {:induction false} TrackKeeps(s: State, max: nat, x: nat)
    requires Tied(s, max) && Trackable(max, x)
    ensures Tied(Tracked(s, Wrap16(x)), Max(max, x))
  {
    hide Wrap32, Wrap16;
    ZeroLow(max);
    if max % 0x1_0000 == 0 {
      SameCycleAfterZero(max, x);
    } else {
      NextCycle(max, x);
      CycleUp(max / 0x1_0000);
    }
  }

  lemma {:induction false} ZeroLow(x: nat)
    ensures Wrap16(x) == 0 <==> x % 0x1_0000 == 0
  {
  }

  /**
   A loss near the highest so far keeps the tracking exactly when it is the new highest or
   the highest does not have a zero low half, which is read as "nothing lost yet".
   */
  lemma {:induction false} TrackedExactly(s: State, max: nat, x: nat)
    requires Tied(s, max) && -0x8000 <= x - max < 0x8000
    ensures Tied(Tracked(s, Wrap16(x)), Max(max, x)) <==> x >= max || max % 0x1_0000 != 0
  {
    if x >= max || max % 0x1_0000 != 0 {
      TrackKeeps(s, max, x);
    } else {
      LowsDiffer(max, x);
    }
  }

  lemma {:induction false} LowsDiffer(max: nat, x: nat)
    requires max % 0x1_0000 == 0 && max - 0x8000 <= x < max
    ensures Wrap16(x) != Wrap16(max) == 0
  {
  }

  lemma {:induction false} FiledExactly(s: State, max: nat, x: nat)
    requires Tied(s, max)
    ensures Extended(s, Wrap16(x)) == Wrap32(FiledAs(max, x))
  {
    hide Or, Pow2;
    var q := max / 0x1_0000;
    Pow2Sixteen();
    WholeCycles(q);
    OrDisjoint(q % 0x1_0000, 16, Wrap16(x));
    CycleAndLow(q, Wrap16(x));
  }

  lemma {:induction false} WholeCycles(q: nat)
    ensures Wrap32(q * 0x1_0000) == q % 0x1_0000 * 0x1_0000
  {
  }

  lemma {:induction false} CycleAndLow(q: nat, low: uint16)
    ensures Wrap32(q % 0x1_0000 * 0x1_0000 + low) == Wrap32(q * 0x1_0000 + low)
  {
    assert q == q / 0x1_0000 * 0x1_0000 + q % 0x1_0000;
  }

  // ---------------------------------------------------------------- whole runs

  predicate AllTrackable(calls: seq<Call>) {
    calls == [] ||
    (&& AllTrackable(calls[..|calls| - 1])
     && (calls[|calls| - 1].Lose? ==> Trackable(Highest(calls[..|calls| - 1]), calls[|calls| - 1].number)))
  }

  lemma {:induction false} RunTied(calls: seq<Call>)
    requires AllTrackable(calls)
    ensures Tied(StateAfter(calls), Highest(calls))
  {
    if calls != [] {
      hide Tied, Trackable, Wrap16, Tracked;
      var front, c := calls[..|calls| - 1], calls[|calls| - 1];
      RunTied(front);
      OnlyLossesTrack(StateAfter(front), OpOf(c), Highest(front));
      if c.Lose? {
        TrackKeeps(StateAfter(front), Highest(front), c.number);
        PushTracks(StateAfter(front), Wrap16(c.number), Max(Highest(front), c.number));
      }
    } else {
      NothingLost();
    }
  }

  lemma {:induction false} NothingLost()
    ensures Tied(NEW_STATE, 0)
  {
  }

  lemma {:induction false} OnlyLossesTrack(s: State, op: Op, max: nat)
    ensures !op.PushOp? ==> (Tied(Apply(s, op), max) <==> Tied(s, max))
  {
    hide Removed, Survivors, KeyFrameSN, Wrap16, Wrap32;
  }

  lemma {:induction false} PushTracks(s: State, sn: uint16, max: nat)
    ensures Tied(Push(s, sn), max) <==> Tied(Tracked(s, sn), max)
  {
    hide Pushed, Present, Or, Tracked;
  }

  /**
   Over any trackable run a loss of x is entered, and a recovery of x looked for, under
   the cycle of the highest number lost: its own number, modulo 2^32, exactly when it
   belongs to that cycle, and 65536 too high when it belongs to the cycle before.
   */
  lemma {:induction false} EnteredAs(calls: seq<Call>, x: nat)
    requires AllTrackable(calls)
    ensures var max := Highest(calls);
            Remove(StateAfter(calls), Wrap16(x)).nacks == Removed(StateAfter(calls).nacks, Wrap32(FiledAs(max, x)))
    ensures Trackable(Highest(calls), x) ==>
              var max := Max(Highest(calls), x);
              && Push(StateAfter(calls), Wrap16(x)).nacks == Pushed(StateAfter(calls).nacks, Wrap32(FiledAs(max, x)))
              && (FiledAs(max, x) == x <==> x / 0x1_0000 == max / 0x1_0000)
              && (x / 0x1_0000 != max / 0x1_0000 ==> FiledAs(max, x) == x + 0x1_0000)
  {
    hide Pushed, Removed, Tied, Extended, Wrap16, Wrap32, Tracked;
    var s := StateAfter(calls);
    RunTied(calls);
    FiledExactly(s, Highest(calls), x);
    if Trackable(Highest(calls), x) {
      TrackKeeps(s, Highest(calls), x);
      FiledExactly(Tracked(s, Wrap16(x)), Max(Highest(calls), x), x);
      OwnCycle(Highest(calls), x);
      PushEnters(s, Wrap16(x));
    }
  }

  lemma {:induction false} PushEnters(s: State, sn: uint16)
    ensures Push(s, sn).nacks == Pushed(s.nacks, Extended(Tracked(s, sn), sn))
  {
    hide Position, Or, Wrap32, Wrap16, Inserted;
  }

  lemma {:induction false} OwnCycle(highest: nat, x: nat)
    requires Trackable(highest, x)
    ensures var max := Max(highest, x);
            && (FiledAs(max, x) == x <==> x / 0x1_0000 == max / 0x1_0000)
            && (x / 0x1_0000 != max / 0x1_0000 ==> FiledAs(max, x) == x + 0x1_0000)
  {
    var max := Max(highest, x);
    assert x == x / 0x1_0000 * 0x1_0000 + x % 0x1_0000;
    assert max / 0x1_0000 - 1 <= x / 0x1_0000 <= max / 0x1_0000;
  }

  /**
   A number queued in its own cycle and recovered when losses have reached the next one is
   not found, and stays queued.
   */
  lemma {:induction false} RecoveredTooLate(calls: seq<Call>, x: nat)
    requires AllTrackable(calls) && Highest(calls) / 0x1_0000 == x / 0x1_0000 + 1
    requires Highest(calls) < 0x1_0000_0000
    requires Holds(StateAfter(calls).nacks, x) && Sorted(StateAfter(calls).nacks)
    ensures Holds(Remove(StateAfter(calls), Wrap16(x)).nacks, x)
  {
    hide Sorted, Holds, Position, Removed, Tied;
    var q := StateAfter(calls).nacks;
    RunTied(calls);
    FiledExactly(StateAfter(calls), Highest(calls), x);
    var y := Extended(StateAfter(calls), Wrap16(x));
    NotItself(Highest(calls), x);
    OthersStay(q, y, x);
  }

  lemma {:induction false} NotItself(max: nat, x: nat)
    requires max / 0x1_0000 == x / 0x1_0000 + 1 && max < 0x1_0000_0000
    ensures Wrap32(FiledAs(max, x)) == x + 0x1_0000 && x < 0x1_0000_0000
  {
    assert x == x / 0x1_0000 * 0x1_0000 + x % 0x1_0000;
  }

  /** Deletion of one number leaves every other. */
  lemma {:induction false} OthersStay(q: seq<Nack>, y: uint32, x: uint32)
    requires Holds(q, x) && x != y
    ensures Holds(Removed(q, y), x)
  {
    if Present(q, y) {
      CutKeeps(q, Position(q, y), x);
    }
  }

  lemma {:induction false} CutKeeps(q: seq<Nack>, i: nat, x: uint32)
    requires i < |q| && q[i].sn != x && Holds(q, x)
    ensures Holds(q[..i] + q[i + 1..], x)
  {
    var k :| 0 <= k < |q| && q[k].sn == x;
    assert (q[..i] + q[i + 1..])[if k < i then k else k - 1] == q[k];
  }

  /** Numbers 65534 and then 65537 lost, 65534 recovered: it is still asked for. */
  lemma {:induction false} LateAfterWrap()
    ensures var s := StateAfter([Lose(65534), Lose(65537), Recover(65534)]);
            Holds(s.nacks, 65534)
  {
    hide Wrap16, Remove, Tracked, Holds, Sorted;
    var calls := [Lose(65534), Lose(65537)];
    var all := calls + [Recover(65534)];
    assert all == [Lose(65534), Lose(65537), Recover(65534)] && all[..2] == calls && calls[..1] == [Lose(65534)];
    assert calls[..1][..0] == [];
    TwoLosses();
    RecoveredTooLate(calls, 65534);
  }

  lemma {:induction false} TwoLosses()
    ensures var calls := [Lose(65534), Lose(65537)];
            && AllTrackable(calls) && Highest(calls) == 65537
            && Holds(StateAfter(calls).nacks, 65534) && Sorted(StateAfter(calls).nacks)
  {
    hide *;
    NewSorted();
    OneLoss();
    AnotherLoss();
    PushedSorted(NEW_STATE.nacks, 65534);
    PushedSorted(StateAfter([Lose(65534)]).nacks, 65537);
    StaysQueued(NEW_STATE.nacks, 65534, 65537);
  }

  /** One more loss of a trackable number of its own cycle is entered under that number. */
  lemma {:induction false} OneMoreLoss(calls: seq<Call>, x: uint32)
    requires AllTrackable(calls) && Trackable(Highest(calls), x) && Highest(calls) <= x
    ensures var more := calls + [Lose(x)];
            && AllTrackable(more) && Highest(more) == x
            && StateAfter(more).nacks == Pushed(StateAfter(calls).nacks, x)
  {
    hide Pushed, Push, Trackable, FiledAs, Wrap16, AllTrackable, StateAfter;
    var more := calls + [Lose(x)];
    assert more[..|calls|] == calls && more[|calls|] == Lose(x);
    Unfold(more);
    EnteredAs(calls, x);
    assert Wrap32(x) == x;
  }

  lemma {:induction false} Unfold(calls: seq<Call>)
    requires calls != []
    ensures var front, c := calls[..|calls| - 1], calls[|calls| - 1];
            && StateAfter(calls) == Apply(StateAfter(front), OpOf(c))
            && (AllTrackable(calls) <==> AllTrackable(front) && (c.Lose? ==> Trackable(Highest(front), c.number)))
  {
  }

  lemma {:induction false} OneLoss()
    ensures var one := [Lose(65534)];
            && AllTrackable(one) && Highest(one) == 65534
            && StateAfter(one).nacks == Pushed(NEW_STATE.nacks, 65534)
  {
    hide Pushed, AllTrackable, StateAfter;
    Nothing();
    OneMoreLoss([], 65534);
    assert [] + [Lose(65534)] == [Lose(65534)];
  }

  lemma {:induction false} Nothing()
    ensures AllTrackable([]) && Highest([]) == 0 && StateAfter([]) == NEW_STATE
  {
  }

  lemma {:induction false} AnotherLoss()
    ensures var one, two := [Lose(65534)], [Lose(65534), Lose(65537)];
            && AllTrackable(two) && Highest(two) == 65537
            && StateAfter(two).nacks == Pushed(StateAfter(one).nacks, 65537)
  {
    hide Pushed, AllTrackable, StateAfter;
    OneLoss();
    OneMoreLoss([Lose(65534)], 65537);
    assert [Lose(65534)] + [Lose(65537)] == [Lose(65534), Lose(65537)];
  }

  lemma {:induction false} NewSorted()
    ensures Sorted(NEW_STATE.nacks) && |NEW_STATE.nacks| == 101
    ensures forall i :: 0 <= i < 101 ==> NEW_STATE.nacks[i].sn == 0
  {
  }

  /** Two numbers pushed into a queue of zeros are both there. */
  lemma {:induction false} StaysQueued(q: seq<Nack>, x: uint32, y: uint32)
    requires |q| == 101 && Sorted(q) && 0 < x < y && forall i :: 0 <= i < |q| ==> q[i].sn == 0
    ensures Holds(Pushed(Pushed(q, x), y), x)
  {
    PositionSplits(q, x);
    var a := Pushed(q, x);
    assert a == q[1..] + [Nack(x, 0)];
    PushedSorted(q, x);
    PositionSplits(a, y);
    assert Pushed(a, y) == a[1..] + [Nack(y, 0)];
    assert Pushed(a, y)[99].sn == x;
  }
}
