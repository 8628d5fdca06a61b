/**
 When a loss is asked for: the schedule of requests on the numbers that arrive, and the
 promise that a burst of losses is asked for at once.
 */
module GapTiming {
  import opened Words
  import opened NackPairs
  import opened LossQueue
  import opened LossQueueRuns
  import opened LossRequests
  import opened PacketRing
  import opened Bucket
  import opened GapLedger

  /** The newest number after a run that begins with number `first`. */
  function Newest(first: nat, adds: seq<Add>): int {
    if adds == [] then first - 1
    else if adds[|adds| - 1].latest then adds[|adds| - 1].number
    else Newest(first, adds[..|adds| - 1])
  }

  /** How many numbers the last packet skips. */
  function SkippedBy(first: nat, adds: seq<Add>): int
    requires adds != []
  {
    adds[|adds| - 1].number - Newest(first, adds[..|adds| - 1]) - 1
  }

  /** Skipped numbers and newest packets since the last request, as far as eight bits tell. */
  function Owed(first: nat, adds: seq<Add>): nat {
    if adds == [] then 0
    else if !adds[|adds| - 1].latest then Owed(first, adds[..|adds| - 1])
    else
      var c := (Owed(first, adds[..|adds| - 1]) + SkippedBy(first, adds)) % 256;
      if c >= 2 then 0 else c + 1
  }

  // ---------------------------------------------------------------- a gap is counted

  lemma {:induction false} PushCounts(t: State, top: nat, v: uint16)
    requires Early(t, top, 1) && 0 < v && (v > top || top - v < 0x8000) && !Holds(t.nacks, v)
    ensures Push(t, v).nacks == Pushed(t.nacks, v) && Push(t, v).counter == Wrap8(t.counter + 1)
    ensures !Present(t.nacks, v)
  {
    hide Or, Wrap32, Wrap8, Pushed, Position;
    EarlyTrack(t, top, v);
    HoldsPresent(t.nacks, v);
  }

  /** Every skipped number is new to the queue and counts. */
  lemma {:induction false} GapCounts(s: State, head: nat, n: nat, k: nat)
    requires Early(s, head, 1) && head < n < 0x1_0000 && n - head <= 0x8000 && k < n - head
    ensures PushMissing(s, n, k).counter == Wrap8(s.counter + k)
    ensures k > 0 ==>
              var t := PushMissing(s, n, k - 1);
              PushMissing(s, n, k).nacks == Pushed(t.nacks, n - k) && !Present(t.nacks, n - k)
  {
    hide LossQueue.Push, Wrap8, EvictedBy, Early, Pushed, Present;
    if k == 0 {
      Small(s.counter);
    } else {
      GapCounts(s, head, n, k - 1);
      var t, dropped := PushMissingMeaning(s, head, n, k - 1, 1);
      EarlyParts(s, head);
      NotYetHeld(s, head, n, k - 1);
      PushMissingStep(s, n, k);
      PushCounts(t, if k == 1 then head else n - 1, n - k);
      OneMoreCounted(s.counter + (k - 1));
    }
  }

  lemma {:induction false} EarlyParts(s: State, head: nat)
    requires Early(s, head, 1)
    ensures Sorted(s.nacks) && s.cycles == 0 && s.maxSN <= head && Below(s.nacks, head + 1)
  {
  }

  lemma {:induction false} Small(c: uint8)
    ensures Wrap8(c + 0) == c
  {
  }

  lemma {:induction false} OneMoreCounted(c: nat)
    ensures Wrap8(Wrap8(c) + 1) == Wrap8(c + 1)
  {
  }

  // ---------------------------------------------------------------- a gap is queued

  /** Distinct numbers strictly between v and n. */
  lemma {:induction false} FewBetween(q: seq<Nack>, v: nat, n: nat)
    requires Spread(q) && Below(q, n) && v < n && forall i :: 0 <= i < |q| ==> q[i].sn > v
    ensures |q| <= n - 1 - v
  {
    if q != [] {
      EntryAtLeast(q, v, |q| - 1);
    }
  }

  lemma {:induction false} EntryAtLeast(q: seq<Nack>, v: nat, i: nat)
    requires Spread(q) && i < |q| && forall j :: 0 <= j < |q| ==> q[j].sn > v
    ensures q[i].sn >= v + 1 + i
  {
    if i > 0 {
      EntryAtLeast(q, v, i - 1);
    }
  }

  /** A number pushed among the nearest hundred below n is queued, and queued it stays. */
  lemma {:induction false} PushedStays(q: seq<Nack>, v: uint32, n: nat, y: uint32)
    requires Spread(q) && Below(q, n) && !Present(q, v) && v <= y < n && n - y <= 100
    requires y == v || Nack(y, 0) in q
    ensures Nack(y, 0) in Pushed(q, v)
  {
    SpreadIsSorted(q);
    PositionSplits(q, v);
    AbsentSplits(q, v);
    var i, r := Position(q, v), Inserted(q, v);
    InsertedHas(q, v, y);
    var k :| 0 <= k < |r| && r[k] == Nack(y, 0);
    if |q| + 1 > 100 {
      if k == 0 {
        FirstIsNewest(q, v, n, y);
        assert false;
      }
      assert r[1..][k - 1] == Nack(y, 0);
    }
  }

  lemma {:induction false} InsertedHas(q: seq<Nack>, v: uint32, y: uint32)
    requires y == v || Nack(y, 0) in q
    ensures Nack(y, 0) in Inserted(q, v)
  {
    var i, r := Position(q, v), Inserted(q, v);
    assert r[i] == Nack(v, 0);
    if y != v {
      var k :| 0 <= k < |q| && q[k] == Nack(y, 0);
      assert r[if k < i then k else k + 1] == q[k];
    }
  }

  /** With a hundred entries before, none of the nearest hundred is the smallest. */
  lemma {:induction false} FirstIsNewest(q: seq<Nack>, v: uint32, n: nat, y: uint32)
    requires Spread(q) && Below(q, n) && !Present(q, v) && v <= y < n && n - y <= 100
    requires Inserted(q, v)[0].sn == y
    ensures |q| < 100
  {
    SpreadIsSorted(q);
    PositionSplits(q, v);
    AbsentSplits(q, v);
    FirstBelow(q, v);
    if Position(q, v) == 0 {
      FewBetween(q, v, n);
    }
  }

  lemma {:induction false} FirstBelow(q: seq<Nack>, v: uint32)
    ensures Position(q, v) > 0 ==> q[0].sn <= Inserted(q, v)[0].sn && Inserted(q, v)[0] == q[0]
    ensures Position(q, v) == 0 ==> Inserted(q, v)[0].sn == v
  {
  }

  /** After a gap is pushed, the hundred numbers nearest to the newest are queued and not yet asked for. */
  lemma {:induction false} GapQueued(s: State, head: nat, n: nat, k: nat, y: nat)
    requires Early(s, head, 1) && Spread(s.nacks) && head < n < 0x1_0000 && n - head <= 0x8000 && k < n - head
    requires n - k <= y < n && n - y <= 100
    ensures Nack(y, 0) in PushMissing(s, n, k).nacks
  {
    hide LossQueue.Push, EvictedBy, Spread, Below, Pushed, Present, Early;
    GapCounts(s, head, n, k);
    PushMissingSpread(s, n, k - 1);
    var t, dropped := PushMissingMeaning(s, head, n, k - 1, 1);
    UpTo(t, if k == 1 then head else n - 1, n);
    if y != n - k {
      GapQueued(s, head, n, k - 1, y);
    }
    PushedStays(t.nacks, n - k, n, y);
  }

  lemma {:induction false} UpTo(t: State, top: nat, n: nat)
    requires Early(t, top, 1) && top < n
    ensures Below(t.nacks, n)
  {
  }

  // ---------------------------------------------------------------- whole runs

  lemma {:induction false} HeadIsNewest(maxSteps: nat, first: nat, adds: seq<Add>)
    requires maxSteps > 0 && first > 0
    ensures Entered(maxSteps, first, adds).head == Newest(first, adds)
  {
    hide AddPacket, LossAfter, EvictedAll, GivenUp, Noted;
    if adds != [] {
      HeadIsNewest(maxSteps, first, adds[..|adds| - 1]);
    }
  }

  /** What the newest packet notes is the gap it leaves. */
  lemma {:induction false} NotedIsGap(maxSteps: nat, first: nat, adds: seq<Add>)
    requires maxSteps > 0 && 0 < first < 0x1_0000 && CycleRun(maxSteps, first, adds)
    requires adds != [] && adds[|adds| - 1].latest
    ensures var l, n := Entered(maxSteps, first, adds[..|adds| - 1]), adds[|adds| - 1].number;
            && l.head < n < 0x1_0000 && n - l.head <= 0x8000 && SkippedBy(first, adds) == n - l.head - 1
            && NotedBy(maxSteps, first, adds) == PushMissing(l.loss, n, n - l.head - 1)
            && Early(l.loss, l.head, 1) && Spread(l.loss.nacks)
  {
    hide AddPacket, EvictedAll, GivenUp, Enter, PushMissing, Early, Spread, Wrap16, Settled, Missed, Entered, Newest;
    var front, a := adds[..|adds| - 1], adds[|adds| - 1];
    var l := Entered(maxSteps, first, front);
    HeadIsNewest(maxSteps, first, front);
    EnteredSpread(maxSteps, first, front);
    RunTracks(maxSteps, first, front);
    RunSettled(maxSteps, first, front, 1);
    SettledEarly(l.loss, l.head, l.added, l.gone, first);
    EnterTracks(l, first, a);
    ForwardGap(l.head, a.number, first);
  }

  lemma {:induction false} SettledEarly(loss: State, head: nat, added: set<nat>, gone: set<nat>, first: nat)
    requires Settled(loss, head, added, gone, first, 1)
    ensures Early(loss, head, 1)
  {
  }

  /** The counter of the queue is what is owed. */
  lemma {:induction false} CounterIsOwed(maxSteps: nat, first: nat, adds: seq<Add>)
    requires maxSteps > 0 && 0 < first < 0x1_0000 && CycleRun(maxSteps, first, adds)
    ensures Entered(maxSteps, first, adds).loss.counter == Owed(first, adds)
  {
    hide AddPacket, EvictedAll, GivenUp, PushMissing, Early, Spread, Settled, Missed, NotedBy, Survivors, KeyFrameSN,
         SkippedBy, CycleRun, Noted;
    if adds != [] {
      var front := adds[..|adds| - 1];
      FrontRun(maxSteps, first, adds);
      CounterIsOwed(maxSteps, first, front);
      if adds[|adds| - 1].latest {
        AskedWhen(maxSteps, first, adds);
        NotedReady(maxSteps, first, adds);
      } else {
        LateKeepsCounter(Entered(maxSteps, first, front), adds[|adds| - 1]);
      }
    }
  }

  lemma {:induction false} FrontRun(maxSteps: nat, first: nat, adds: seq<Add>)
    requires maxSteps > 0 && first > 0 && CycleRun(maxSteps, first, adds) && adds != []
    ensures CycleRun(maxSteps, first, adds[..|adds| - 1])
  {
  }

  lemma {:induction false} LateKeepsCounter(l: Ledger, a: Add)
    requires l.ring.step < |l.ring.slots| && !a.latest
    ensures Enter(l, a).loss.counter == l.loss.counter
  {
    hide AddPacket, Removed;
  }

  /** The newest packet's own share. */
  lemma {:induction false} AskedWhen(maxSteps: nat, first: nat, adds: seq<Add>)
    requires maxSteps > 0 && 0 < first < 0x1_0000 && CycleRun(maxSteps, first, adds)
    requires adds != [] && adds[|adds| - 1].latest
    requires Entered(maxSteps, first, adds[..|adds| - 1]).loss.counter == Owed(first, adds[..|adds| - 1])
    ensures NotedBy(maxSteps, first, adds).counter == (Owed(first, adds[..|adds| - 1]) + SkippedBy(first, adds)) % 256
  {
    hide PushMissing, Early, Spread, NotedBy, SkippedBy, CycleRun, Entered;
    NotedIsGap(maxSteps, first, adds);
    var l, n := Entered(maxSteps, first, adds[..|adds| - 1]), adds[|adds| - 1].number;
    GapCounts(l.loss, l.head, n, n - l.head - 1);
  }

  /**
   The schedule: a newest packet asks for what is missing exactly when the numbers skipped
   and the newest packets since the last request, modulo 256, are two or more.
   */
  lemma {:induction false} RequestSchedule(maxSteps: nat, first: nat, adds: seq<Add>)
    requires maxSteps > 0 && 0 < first < 0x1_0000 && CycleRun(maxSteps, first, adds)
    requires adds != [] && adds[|adds| - 1].latest
    ensures Effective(NotedBy(maxSteps, first, adds)) <==>
            (Owed(first, adds[..|adds| - 1]) + SkippedBy(first, adds)) % 256 >= 2
    ensures Owed(first, adds[..|adds| - 1]) <= 2
  {
    hide Entered, NotedBy, CycleRun, SkippedBy;
    FrontRun(maxSteps, first, adds);
    CounterIsOwed(maxSteps, first, adds[..|adds| - 1]);
    AskedWhen(maxSteps, first, adds);
    OwedSmall(first, adds[..|adds| - 1]);
  }

  lemma {:induction false} OwedSmall(first: nat, adds: seq<Add>)
    ensures Owed(first, adds) <= 2
  {
    if adds != [] {
      OwedSmall(first, adds[..|adds| - 1]);
    }
  }

  /**
   When the request is due, the hundred skipped numbers nearest to the newest are named at
   once: the callback is called with them.
   */
  lemma {:induction false} SkippedAreNamed(
      maxSteps: nat, first: nat, adds: seq<Add>, lost: Option<(seq<NackPair>, bool)>, ask: bool, y: uint16)
    requires maxSteps > 0 && 0 < first < 0x1_0000 && CycleRun(maxSteps, first, adds)
    requires adds != [] && adds[|adds| - 1].latest && LostOk(lost, NotedBy(maxSteps, first, adds), ask)
    requires (Owed(first, adds[..|adds| - 1]) + SkippedBy(first, adds)) % 256 >= 2
    requires var n := adds[|adds| - 1].number; n - SkippedBy(first, adds) <= y < n && n - y <= 100
    ensures lost.Some? && y in AskedFor(lost)
  {
    hide Spread, Below, Pending, Entered, CycleRun, NotedBy, PairsOf, ReadPairs, PushMissing, Early, Owed, SkippedBy;
    var noted := NotedBy(maxSteps, first, adds);
    RequestSchedule(maxSteps, first, adds);
    NotedIsGap(maxSteps, first, adds);
    NotedReady(maxSteps, first, adds);
    var l, n := Entered(maxSteps, first, adds[..|adds| - 1]), adds[|adds| - 1].number;
    GapQueued(l.loss, l.head, n, n - l.head - 1, y);
    FreshIsPending(noted.nacks, y);
    NamedExactly(noted);
    NothingRead();
  }

  lemma {:induction false} NothingRead()
    ensures ReadPairs([]) == []
  {
  }

  lemma {:induction false} FreshIsPending(q: seq<Nack>, y: uint32)
    requires Nack(y, 0) in q
    ensures Pending(q, y)
  {
    var i :| 0 <= i < |q| && q[i] == Nack(y, 0);
    assert q[i].nacked < MAX_NACK_TIMES && q[i].sn == y;
  }

  /** A burst of two to 253 losses is asked for at once, whatever was owed before. */
  lemma {:induction false} BurstAskedAtOnce(
      maxSteps: nat, first: nat, adds: seq<Add>, lost: Option<(seq<NackPair>, bool)>, ask: bool, y: uint16)
    requires maxSteps > 0 && 0 < first < 0x1_0000 && CycleRun(maxSteps, first, adds)
    requires adds != [] && adds[|adds| - 1].latest && LostOk(lost, NotedBy(maxSteps, first, adds), ask)
    requires 2 <= SkippedBy(first, adds) <= 253
    requires var n := adds[|adds| - 1].number; n - SkippedBy(first, adds) <= y < n && n - y <= 100
    ensures lost.Some? && y in AskedFor(lost)
  {
    hide CycleRun, NotedBy, LostOk, AskedFor, SkippedBy, Owed;
    OwedSmall(first, adds[..|adds| - 1]);
    SkippedAreNamed(maxSteps, first, adds, lost, ask, y);
  }

  /** A burst of 256 losses right after a request is counted as none: nothing is asked for. */
  lemma {:induction false} LongBurstUnasked(
      maxSteps: nat, first: nat, adds: seq<Add>, lost: Option<(seq<NackPair>, bool)>, ask: bool)
    requires maxSteps > 0 && 0 < first < 0x1_0000 && CycleRun(maxSteps, first, adds)
    requires adds != [] && adds[|adds| - 1].latest && LostOk(lost, NotedBy(maxSteps, first, adds), ask)
    requires SkippedBy(first, adds) == 256 && Owed(first, adds[..|adds| - 1]) == 0
    ensures lost == None
  {
    hide CycleRun, NotedBy, SkippedBy, Owed;
    RequestSchedule(maxSteps, first, adds);
    NoPairs([]);
  }
}
