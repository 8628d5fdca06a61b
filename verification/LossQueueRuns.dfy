/**
 Properties of the loss queue over whole runs of pushes, removals and requests for pairs,
 in any order and number.
 */
module LossQueueRuns {
  import opened Words
  import opened NackPairs
  import opened LossQueue

  datatype Op = PushOp(sn: uint16) | RemoveOp(sn: uint16) | PairsOp

  function Apply(s: State, op: Op): State {
    match op
    case PushOp(sn) => Push(s, sn)
    case RemoveOp(sn) => Remove(s, sn)
    case PairsOp => Pairs(s)
  }

  function RunOps(s: State, ops: seq<Op>): State
    decreases |ops|
  {
    if ops == [] then s else RunOps(Apply(s, ops[0]), ops[1..])
  }

  // ---------------------------------------------------------------- order and bounds

  predicate Ordered(s: State) { Strict(s.nacks) && |s.nacks| <= MAX_NACK_CACHE }
  predicate Bounded(s: State) { Sorted(s.nacks) && |s.nacks| <= MAX_NACK_CACHE + 1 }

  lemma {:induction false} ApplyKeeps(s: State, op: Op)
    ensures Ordered(s) ==> Ordered(Apply(s, op))
    ensures Bounded(s) ==> Bounded(Apply(s, op))
  {
    hide Or, Position, Pushed, Removed, Survivors, KeyFrameSN, Strict, Sorted;
    if Ordered(s) || Bounded(s) {
      StrictIsSorted(s.nacks);
      match op
      case PushOp(sn) =>
        PushedSorted(s.nacks, Extended(Tracked(s, sn), sn));
      case RemoveOp(sn) =>
        RemovedSorted(s.nacks, Extended(s, sn));
      case PairsOp =>
        SurvivorsSorted(s.nacks);
    }
  }

  lemma {:induction false} StrictIsSorted(q: seq<Nack>)
    ensures Strict(q) ==> Sorted(q)
  {
  }

  lemma {:induction false} RunKeeps(s: State, ops: seq<Op>)
    ensures Ordered(s) ==> Ordered(RunOps(s, ops))
    ensures Bounded(s) ==> Bounded(RunOps(s, ops))
    decreases |ops|
  {
    if ops == [] {
    } else {
      ApplyKeeps(s, ops[0]);
      RunKeeps(Apply(s, ops[0]), ops[1..]);
    }
  }

  /**
   Whatever the run, a queue that began empty stays strictly sorted with at most 100
   entries, and one from newNACKQueue stays sorted with at most 101.
   */
  lemma {:induction false} QueueInvariant(ops: seq<Op>)
    ensures Ordered(RunOps(EMPTY_STATE, ops))
    ensures Bounded(RunOps(NEW_STATE, ops))
  {
    RunKeeps(EMPTY_STATE, ops);
    RunKeeps(NEW_STATE, ops);
  }

  // ---------------------------------------------------------------- the list as a set

  predicate Holds(q: seq<Nack>, sn: uint32) { exists i :: 0 <= i < |q| && q[i].sn == sn }

  lemma {:induction false} HoldsPresent(q: seq<Nack>, sn: uint32)
    requires Sorted(q)
    ensures Holds(q, sn) <==> Present(q, sn)
  {
    PositionSplits(q, sn);
  }

  lemma {:induction false} HoldsInserted(q: seq<Nack>, sn: uint32, y: uint32)
    ensures Holds(Inserted(q, sn), y) <==> Holds(q, y) || y == sn
  {
    var i, r := Position(q, sn), Inserted(q, sn);
    assert r[i].sn == sn;
    if k :| 0 <= k < |q| && q[k].sn == y {
      assert r[if k < i then k else k + 1] == q[k];
    }
    if k :| 0 <= k < |r| && r[k].sn == y && k != i {
      assert q[if k < i then k else k - 1] == r[k];
    }
  }

  /** The number that insertion into a full queue drops: the smallest. */
  function Evicted(q: seq<Nack>, sn: uint32): uint32 { Inserted(q, sn)[0].sn }

  /** No two entries carry the number y; in a strict queue that is so for every y. */
  predicate Single(q: seq<Nack>, y: uint32) {
    forall i, j :: 0 <= i < j < |q| ==> !(q[i].sn == y && q[j].sn == y)
  }

  /**
   Bisection and shifting implement insertion into a bounded set that drops its smallest
   element: y is in the list afterwards if it was there or is the number inserted, unless
   the number was new, the list full and y the smallest.
   */
  lemma {:induction false} PushMeaning(q: seq<Nack>, sn: uint32, y: uint32)
    requires Sorted(q) && Single(q, y)
    ensures Holds(Pushed(q, sn), y) <==>
            (Holds(q, y) || y == sn) && !(!Holds(q, sn) && |q| >= MAX_NACK_CACHE && y == Evicted(q, sn))
    ensures Holds(q, y) || y == sn ==> Evicted(q, sn) <= y
    ensures Single(Pushed(q, sn), y)
  {
    HoldsPresent(q, sn);
    HoldsInserted(q, sn, y);
    var r := Inserted(q, sn);
    if !Present(q, sn) {
      SingleInserted(q, sn, y);
      HoldsTail(r, y);
    }
    if Holds(q, y) || y == sn {
      var k :| 0 <= k < |r| && r[k].sn == y;
      EvictedLeast(q, sn, k);
    }
  }

  lemma {:induction false} SingleInserted(q: seq<Nack>, sn: uint32, y: uint32)
    requires Sorted(q) && Single(q, y) && !Present(q, sn)
    ensures Single(Inserted(q, sn), y)
  {
    hide Sorted, Present;
    PositionSplits(q, sn);
    AbsentSplits(q, sn);
    var i, r := Position(q, sn), Inserted(q, sn);
    hide Position;
    assert forall k :: 0 <= k < |r| && k != i ==> r[k] == q[if k < i then k else k - 1];
    assert r[i].sn == sn;
  }

  lemma {:induction false} EvictedLeast(q: seq<Nack>, sn: uint32, k: nat)
    requires Sorted(q) && k <= |q|
    ensures Evicted(q, sn) <= Inserted(q, sn)[k].sn
  {
    PositionSplits(q, sn);
  }

  lemma {:induction false} HoldsTail(r: seq<Nack>, y: uint32)
    requires r != [] && Single(r, y)
    ensures Holds(r[1..], y) <==> Holds(r, y) && y != r[0].sn
    ensures Single(r[1..], y)
  {
    if k :| 0 <= k < |r| && r[k].sn == y && k > 0 {
      assert r[1..][k - 1] == r[k];
    }
    if k :| 0 <= k < |r[1..]| && r[1..][k].sn == y {
      assert r[k + 1] == r[1..][k];
    }
  }

  /** Deletion takes out exactly the one number. */
  lemma {:induction false} RemoveMeaning(q: seq<Nack>, sn: uint32, y: uint32)
    requires Sorted(q) && Single(q, sn) && Single(q, y)
    ensures Holds(Removed(q, sn), y) <==> Holds(q, y) && y != sn
    ensures Single(Removed(q, sn), y)
  {
    HoldsPresent(q, sn);
    if Present(q, sn) {
      RemovedAt(q, Position(q, sn), y);
    }
  }

  lemma {:induction false} RemovedAt(q: seq<Nack>, i: nat, y: uint32)
    requires i < |q| && Single(q, q[i].sn) && Single(q, y)
    ensures Holds(q[..i] + q[i + 1..], y) <==> Holds(q, y) && y != q[i].sn
    ensures Single(q[..i] + q[i + 1..], y)
  {
    var r := q[..i] + q[i + 1..];
    assert forall k :: 0 <= k < |r| ==> r[k] == q[if k < i then k else k + 1];
    if k :| 0 <= k < |q| && q[k].sn == y && k != i {
      assert r[if k < i then k else k - 1] == q[k];
    }
    if k :| 0 <= k < |r| && r[k].sn == y {
      assert q[if k < i then k else k + 1] == r[k];
    }
  }

  /** Compaction keeps a number exactly while it has been asked for fewer than three times. */
  lemma {:induction false} SurvivorsMeaning(q: seq<Nack>, y: uint32)
    requires Single(q, y)
    ensures Holds(Survivors(q), y) <==> exists i :: 0 <= i < |q| && q[i].sn == y && q[i].nacked < MAX_NACK_TIMES
    ensures Single(Survivors(q), y)
  {
    if q == [] {
    } else {
      var n := |q| - 1;
      var front, x := q[..n], q[n];
      assert forall i :: 0 <= i < n ==> front[i] == q[i];
      SurvivorsMeaning(front, y);
      var s, r := Survivors(front), Survivors(q);
      if x.nacked < MAX_NACK_TIMES {
        HoldsAppend(s, Nack(x.sn, x.nacked + 1), y);
        if x.sn == y {
          assert q[n].sn == y;
          assert !Holds(s, y);
        }
        SingleAppend(s, Nack(x.sn, x.nacked + 1), y);
      } else {
        assert r == s;
      }
    }
  }

  lemma {:induction false} HoldsAppend(s: seq<Nack>, x: Nack, y: uint32)
    ensures Holds(s + [x], y) <==> Holds(s, y) || x.sn == y
  {
    if i :| 0 <= i < |s| && s[i].sn == y {
      assert (s + [x])[i] == s[i];
    }
    if x.sn == y {
      assert (s + [x])[|s|].sn == y;
    }
  }

  lemma {:induction false} SingleAppend(s: seq<Nack>, x: Nack, y: uint32)
    requires Single(s, y) && !(x.sn == y && Holds(s, y))
    ensures Single(s + [x], y)
  {
  }

  // ---------------------------------------------------------------- bounded nagging

  /** How often a run of operations asks for the number e. */
  function Requests(s: State, ops: seq<Op>, e: uint32): nat
    decreases |ops|
  {
    if ops == [] then 0
    else (if ops[0].PairsOp? && e as nat in Reported(s) then 1 else 0) + Requests(Apply(s, ops[0]), ops[1..], e)
  }

  /** The run never inserts e again. */
  predicate NeverPushed(s: State, ops: seq<Op>, e: uint32)
    decreases |ops|
  {
    ops == [] ||
    (&& (ops[0].PushOp? ==> Extended(Tracked(s, ops[0].sn), ops[0].sn) != e)
     && NeverPushed(Apply(s, ops[0]), ops[1..], e))
  }

  /** How many more times e may be asked for. */
  function Patience(q: seq<Nack>, e: uint32): nat {
    if q == [] then 0
    else
      var x := q[|q| - 1];
      Patience(q[..|q| - 1], e) + if x.sn == e && x.nacked < MAX_NACK_TIMES then MAX_NACK_TIMES - x.nacked else 0
  }

  lemma {:induction false} PatienceAppend(a: seq<Nack>, b: seq<Nack>, e: uint32)
    ensures Patience(a + b, e) == Patience(a, e) + Patience(b, e)
  {
    if b == [] {
      assert a + b == a;
    } else {
      PatienceAppend(a, b[..|b| - 1], e);
      assert (a + b)[..|a + b| - 1] == a + b[..|b| - 1];
    }
  }

  lemma {:induction false} PatienceOne(x: Nack, e: uint32)
    ensures Patience([x], e) == if x.sn == e && x.nacked < MAX_NACK_TIMES then MAX_NACK_TIMES - x.nacked else 0
  {
    assert [x][..0] == [];
  }

  lemma {:induction false} InsertPatience(q: seq<Nack>, sn: uint32, e: uint32)
    ensures Patience(Inserted(q, sn), e) == Patience(q, e) + if sn == e then MAX_NACK_TIMES else 0
  {
    var i := Position(q, sn);
    PatienceAppend(q[..i], q[i..], e);
    assert q[..i] + q[i..] == q;
    PatienceAppend(q[..i] + [Nack(sn, 0)], q[i..], e);
    PatienceAppend(q[..i], [Nack(sn, 0)], e);
    PatienceOne(Nack(sn, 0), e);
  }

  lemma {:induction false} TailPatience(q: seq<Nack>, e: uint32)
    requires q != []
    ensures Patience(q[1..], e) <= Patience(q, e)
  {
    PatienceAppend(q[..1], q[1..], e);
    assert q[..1] + q[1..] == q;
  }

  /** Inserting a number makes the queue no more patient about any other, and about it by three at most. */
  lemma {:induction false} PushPatience(q: seq<Nack>, sn: uint32, e: uint32)
    ensures Patience(Pushed(q, sn), e) <= Patience(q, e) + if sn == e then MAX_NACK_TIMES else 0
  {
    if !Present(q, sn) {
      InsertPatience(q, sn, e);
      TailPatience(Inserted(q, sn), e);
    }
  }

  lemma {:induction false} RemovePatience(q: seq<Nack>, sn: uint32, e: uint32)
    ensures Patience(Removed(q, sn), e) <= Patience(q, e)
  {
    if Present(q, sn) {
      CutPatience(q, Position(q, sn), e);
    }
  }

  lemma {:induction false} CutPatience(q: seq<Nack>, i: nat, e: uint32)
    requires i < |q|
    ensures Patience(q[..i] + q[i + 1..], e) <= Patience(q, e)
  {
    hide Patience;
    PatienceAppend(q[..i], q[i..], e);
    assert q[..i] + q[i..] == q;
    TailPatience(q[i..], e);
    assert q[i..][1..] == q[i + 1..];
    PatienceAppend(q[..i], q[i + 1..], e);
  }

  /** Asking for e costs patience. */
  lemma {:induction false} SurvivorsPatience(q: seq<Nack>, e: uint32)
    ensures Patience(Survivors(q), e) + (if e as nat in Numbers(Survivors(q)) then 1 else 0) <= Patience(q, e)
  {
    if q == [] {
    } else {
      var front, x := q[..|q| - 1], q[|q| - 1];
      SurvivorsPatience(front, e);
      if x.nacked < MAX_NACK_TIMES {
        var y := Nack(x.sn, x.nacked + 1);
        PatienceAppend(Survivors(front), [y], e);
        PatienceOne(y, e);
        assert Numbers(Survivors(front) + [y]) == Numbers(Survivors(front)) + [y.sn as nat];
      } else {
        assert Survivors(q) == Survivors(front);
      }
    }
  }

  /** Until it is inserted again, a number is asked for at most as often as the queue is patient about it. */
  lemma {:induction false} RequestsBounded(s: State, ops: seq<Op>, e: uint32)
    requires NeverPushed(s, ops, e)
    ensures Requests(s, ops, e) <= Patience(s.nacks, e)
    decreases |ops|
  {
    if ops == [] {
    } else {
      var t := Apply(s, ops[0]);
      RequestsBounded(t, ops[1..], e);
      match ops[0]
      case PushOp(sn) => PushPatience(s.nacks, Extended(Tracked(s, sn), sn), e);
      case RemoveOp(sn) => RemovePatience(s.nacks, Extended(s, sn), e);
      case PairsOp => SurvivorsPatience(s.nacks, e);
    }
  }

  lemma {:induction false} AbsentPatience(q: seq<Nack>, e: uint32)
    requires forall i :: 0 <= i < |q| ==> q[i].sn != e
    ensures Patience(q, e) == 0
  {
    if q == [] {
    } else {
      AbsentPatience(q[..|q| - 1], e);
    }
  }

  /** A number just inserted is asked for at most three times, whatever happens until it is inserted again. */
  lemma {:induction false} AtMostThreeRequests(q: State, sn: uint16, ops: seq<Op>)
    requires Sorted(q.nacks)
    requires var e := Extended(Tracked(q, sn), sn);
             !Present(q.nacks, e) && NeverPushed(Push(q, sn), ops, e)
    ensures Requests(Push(q, sn), ops, Extended(Tracked(q, sn), sn)) <= 3
  {
    var e := Extended(Tracked(q, sn), sn);
    RequestsBounded(Push(q, sn), ops, e);
    AbsentSplits(q.nacks, e);
    PositionSplits(q.nacks, e);
    AbsentPatience(q.nacks, e);
    PushPatience(q.nacks, e, e);
  }

  // ---------------------------------------------------------------- draining

  function PairsTimes(s: State, n: nat): State
    decreases n
  {
    if n == 0 then s else PairsTimes(Pairs(s), n - 1)
  }

  /** Of any three calls in a row exactly one is effective. */
  lemma {:induction false} ThreeCalls(s: State)
    ensures PairsTimes(s, 3).nacks == Survivors(s.nacks)
    ensures PairsTimes(s, 3).counter == if s.counter < 2 then s.counter else 2
  {
    var a := Pairs(s);
    var b := Pairs(a);
    assert PairsTimes(s, 3) == PairsTimes(a, 2) == PairsTimes(b, 1) == PairsTimes(Pairs(b), 0);
  }

  predicate AskedAtLeast(q: seq<Nack>, m: nat) { forall i :: 0 <= i < |q| ==> q[i].nacked >= m }

  lemma {:induction false} SurvivorsAsked(q: seq<Nack>, m: nat)
    requires AskedAtLeast(q, m)
    ensures AskedAtLeast(Survivors(q), m + 1)
    ensures m >= MAX_NACK_TIMES ==> Survivors(q) == []
  {
    if q == [] {
    } else {
      SurvivorsAsked(q[..|q| - 1], m);
    }
  }

  lemma {:induction false} TimesAdd(s: State, m: nat, n: nat)
    ensures PairsTimes(s, m + n) == PairsTimes(PairsTimes(s, m), n)
    decreases m
  {
    if m > 0 {
      TimesAdd(Pairs(s), m - 1, n);
    }
  }

  /** From any state, twelve calls without a push empty the queue. */
  lemma {:induction false} TwelveCallsDrain(s: State)
    ensures PairsTimes(s, 12).nacks == []
  {
    var a, b := PairsTimes(s, 3), PairsTimes(PairsTimes(s, 3), 3);
    var c := PairsTimes(b, 3);
    ThreeCalls(s);
    ThreeCalls(a);
    ThreeCalls(b);
    ThreeCalls(c);
    TimesAdd(s, 3, 9);
    TimesAdd(a, 3, 6);
    TimesAdd(b, 3, 3);
    SurvivorsAsked(s.nacks, 0);
    SurvivorsAsked(a.nacks, 1);
    SurvivorsAsked(b.nacks, 2);
    SurvivorsAsked(c.nacks, 3);
  }

  /** Eleven may not. */
  lemma {:induction false} ElevenCallsMayNot()
    ensures PairsTimes(State([Nack(7, 0)], 0, 7, 0, 0), 11).nacks == [Nack(7, 3)]
  {
    var s := State([Nack(7, 0)], 0, 7, 0, 0);
    var a, b := PairsTimes(s, 3), PairsTimes(PairsTimes(s, 3), 3);
    var c := PairsTimes(b, 3);
    ThreeCalls(s);
    ThreeCalls(a);
    ThreeCalls(b);
    TimesAdd(s, 3, 8);
    TimesAdd(a, 3, 5);
    TimesAdd(b, 3, 2);
    OneSurvivor(7, 0);
    OneSurvivor(7, 1);
    OneSurvivor(7, 2);
    assert PairsTimes(c, 2) == Pairs(Pairs(c));
  }

  lemma {:induction false} OneSurvivor(sn: uint32, n: uint8)
    requires n < MAX_NACK_TIMES
    ensures Survivors([Nack(sn, n)]) == [Nack(sn, n + 1)]
  {
    assert [Nack(sn, n)][..0] == [];
  }

  // ---------------------------------------------------------------- key frames

  /** Some entry for the number y has been asked for three times. */
  predicate Exhausted(q: seq<Nack>, y: uint32) {
    exists i :: 0 <= i < |q| && q[i].nacked >= MAX_NACK_TIMES && q[i].sn == y
  }

  /**
   A key frame is asked for exactly when a number above every one given up before is given
   up, and the new mark is the highest number given up.
   */
  lemma {:induction false} KeyFrameMeaning(q: seq<Nack>, kf: uint32)
    ensures KeyFrameSN(q, kf) >= kf
    ensures KeyFrameSN(q, kf) > kf <==> exists y: uint32 :: Exhausted(q, y) && y > kf
    ensures KeyFrameSN(q, kf) > kf ==> Exhausted(q, KeyFrameSN(q, kf))
    ensures forall y: uint32 :: Exhausted(q, y) ==> y <= KeyFrameSN(q, kf)
  {
    if q == [] {
    } else {
      var front, x := q[..|q| - 1], q[|q| - 1];
      KeyFrameMeaning(front, kf);
      forall y: uint32 ensures Exhausted(q, y) <==> Exhausted(front, y) || (x.nacked >= MAX_NACK_TIMES && x.sn == y) {
        ExhaustedStep(q, y);
      }
      assert KeyFrameSN(q, kf) > kf ==> Exhausted(q, KeyFrameSN(q, kf));
    }
  }

  lemma {:induction false} ExhaustedStep(q: seq<Nack>, y: uint32)
    requires q != []
    ensures var front, x := q[..|q| - 1], q[|q| - 1];
            Exhausted(q, y) <==> Exhausted(front, y) || (x.nacked >= MAX_NACK_TIMES && x.sn == y)
  {
    var front, x := q[..|q| - 1], q[|q| - 1];
    if i :| 0 <= i < |front| && front[i].nacked >= MAX_NACK_TIMES && front[i].sn == y {
      assert q[i] == front[i];
    }
    if x.nacked >= MAX_NACK_TIMES && x.sn == y {
      assert q[|q| - 1].sn == y;
    }
    if i :| 0 <= i < |q| - 1 && q[i].nacked >= MAX_NACK_TIMES && q[i].sn == y {
      assert front[i] == q[i];
    }
  }
}
