/**
 Ring and loss queue together, over whole runs within one cycle of numbers: what became
 of every number the newest packet has passed.
 */
module GapLedger {
  import opened Words
  import opened NackPairs
  import opened LossQueue
  import opened LossQueueRuns
  import opened LossRequests
  import opened PacketRing
  import opened Bucket

  /**
   Cache and loss queue after a run, with what an observer notes down: the newest true
   number, the numbers added, and the numbers the queue dropped to make room or gave up.
   */
  datatype Ledger = Ledger(ring: Ring, loss: State, head: nat, added: set<nat>, gone: set<nat>)

  /** The number a push drops from a full queue. */
  function EvictedBy(s: State, sn: uint16): set<nat> {
    var t := Tracked(s, sn);
    var ext := Extended(t, sn);
    if !Present(t.nacks, ext) && |t.nacks| >= MAX_NACK_CACHE then {Evicted(t.nacks, ext) as nat} else {}
  }

  function EvictedAll(s: State, sn: uint16, n: nat): set<nat> {
    if n == 0 then {}
    else EvictedAll(s, sn, n - 1) + EvictedBy(PushMissing(s, sn, n - 1), Wrap16(sn - n))
  }

  /** The numbers an effective request gives up: asked for three times already. */
  function GivenUp(s: State): set<nat> {
    if Effective(s) then
      set i | 0 <= i < |s.nacks| && s.nacks[i].nacked >= MAX_NACK_TIMES :: s.nacks[i].sn as nat
    else {}
  }

  function Enter(l: Ledger, a: Add): (r: Ledger)
    requires l.ring.step < |l.ring.slots|
    ensures r.ring.step < |r.ring.slots| == |l.ring.slots|
  {
    var sn := Wrap16(a.number);
    var ring := AddPacket(l.ring, a.packet, sn, a.latest);
    var loss := LossAfter(l.loss, l.ring, sn, a.latest);
    if a.latest then
      Ledger(ring, loss, a.number, l.added + {a.number},
             l.gone + EvictedAll(l.loss, sn, Missed(Started(l.ring, sn), sn)) + GivenUp(Noted(l.loss, l.ring, sn, true)))
    else
      Ledger(ring, loss, l.head, l.added + {a.number}, l.gone)
  }

  /** Calls within the first cycle: forward by at most half a cycle, or late. */
  predicate InCycle(l: Ledger, a: Add) {
    && 0 < a.number < 0x1_0000
    && if a.latest then l.head < a.number <= l.head + 0x8000 else a.number <= l.head
  }

  // ---------------------------------------------------------------- pushing a gap

  /** A loss queue of the first cycle that knows nothing above `top` and holds y at most once. */
  predicate Early(s: State, top: nat, y: nat) {
    && Sorted(s.nacks) && s.cycles == 0 && s.maxSN <= top
    && 0 < y < 0x1_0000 && Single(s.nacks, y)
    && Below(s.nacks, top + 1)
  }

  lemma {:induction false} EarlyPush(s: State, top: nat, y: nat, v: uint16)
    requires Early(s, top, y) && 0 < v && (v > top || top - v < 0x8000)
    ensures Extended(Tracked(s, v), v) == v
    ensures Early(Push(s, v), if v > top then v else top, y)
    ensures Holds(Push(s, v).nacks, y) <==> (Holds(s.nacks, y) || y == v) && !(!Holds(s.nacks, v) && y in EvictedBy(s, v))
    ensures y in EvictedBy(s, v) ==> Holds(s.nacks, y) || y == v
  {
    hide Or, Position, Pushed, Inserted, Below, Sorted, Single, Holds, Wrap8, Wrap32;
    var t := Tracked(s, v);
    EarlyTrack(s, top, v);
    BelowWiden(s.nacks, top + 1, (if v > top then v else top) + 1);
    PushMeaning(s.nacks, v, y);
    PushedSorted(s.nacks, v);
    HoldsPresent(s.nacks, v);
    PushedUnder(s.nacks, v, (if v > top then v else top) + 1);
    if y in EvictedBy(s, v) {
      EvictedIsHeld(s.nacks, v, y);
    }
  }

  lemma {:induction false} EarlyTrack(s: State, top: nat, v: uint16)
    requires s.cycles == 0 && s.maxSN <= top && 0 < v && (v > top || top - v < 0x8000)
    ensures var t := Tracked(s, v);
            t.cycles == 0 && t.nacks == s.nacks && t.maxSN <= (if v > top then v else top) && Extended(t, v) == v
  {
  }

  lemma {:induction false} BelowWiden(q: seq<Nack>, top: nat, top': nat)
    requires Below(q, top) && top <= top'
    ensures Below(q, top')
  {
  }

  lemma {:induction false} EvictedIsHeld(q: seq<Nack>, v: uint32, y: uint32)
    requires Evicted(q, v) == y
    ensures Holds(q, y) || y == v
  {
    assert Inserted(q, v)[0].sn == y;
    HoldsInserted(q, v, y);
  }

  /** What is known of y after the k numbers below n are pushed and `dropped` were dropped. */
  predicate Tally(t: State, top: nat, before: bool, n: nat, k: nat, y: nat, dropped: set<nat>) {
    && Early(t, top, y)
    && (Holds(t.nacks, y) <==> (before || n - k <= y < n) && y !in dropped)
    && (y in dropped ==> before || n - k <= y < n)
  }

  lemma {:induction false} PushOneMore(t: State, top: nat, before: bool, n: nat, k: nat, y: nat, dropped: set<nat>)
    requires k + 1 < n < 0x1_0000 && top < n
    requires Tally(t, top, before, n, k, y, dropped)
    requires n - k - 1 > top || top - (n - k - 1) < 0x8000
    requires !Holds(t.nacks, n - k - 1) && (y == n - k - 1 ==> !before)
    ensures Tally(Push(t, n - k - 1), if n - k - 1 > top then n - k - 1 else top, before, n, k + 1, y,
                    dropped + EvictedBy(t, n - k - 1))
  {
    hide Early, Holds, LossQueue.Push, EvictedBy;
    EarlyPush(t, top, y, n - k - 1);
  }

  /**
   After the k numbers below n are pushed, nearest first, y is queued if it was or is one
   of them, and was not dropped to make room.
   */
  lemma {:induction false} PushMissingMeaning(s: State, head: nat, n: nat, k: nat, y: nat)
      returns (t: State, dropped: set<nat>)
    requires Early(s, head, y) && head < n < 0x1_0000 && n - head <= 0x8000 && k < n - head
    ensures t == PushMissing(s, n, k) && dropped == EvictedAll(s, n, k)
    ensures Tally(t, if k == 0 then head else n - 1, Holds(s.nacks, y), n, k, y, dropped)
    decreases k, 0
  {
    hide LossQueue.Push, EvictedBy;
    if k == 0 {
      t, dropped := s, {};
    } else {
      var before, others := PushMissingMeaning(s, head, n, k - 1, y);
      NotYetHeld(s, head, n, k - 1);
      t, dropped := PushOne(before, if k == 1 then head else n - 1, Holds(s.nacks, y), n, k - 1, y, others);
      PushMissingStep(s, n, k);
    }
  }

  lemma {:induction false} PushMissingStep(s: State, n: nat, k: nat)
    requires 0 < k < n < 0x1_0000
    ensures PushMissing(s, n, k) == Push(PushMissing(s, n, k - 1), n - k)
    ensures EvictedAll(s, n, k) == EvictedAll(s, n, k - 1) + EvictedBy(PushMissing(s, n, k - 1), n - k)
  {
    hide LossQueue.Push, EvictedBy;
  }

  lemma {:induction false} PushOne(t: State, top: nat, before: bool, n: nat, k: nat, y: nat, dropped: set<nat>)
      returns (t': State, dropped': set<nat>)
    requires k + 1 < n < 0x1_0000 && top < n && top - (n - k - 1) < 0x8000
    requires Tally(t, top, before, n, k, y, dropped)
    requires !Holds(t.nacks, n - k - 1) && (y == n - k - 1 ==> !before)
    ensures t' == Push(t, n - k - 1) && dropped' == dropped + EvictedBy(t, n - k - 1)
    ensures Tally(t', if n - k - 1 > top then n - k - 1 else top, before, n, k + 1, y, dropped')
  {
    PushOneMore(t, top, before, n, k, y, dropped);
    t', dropped' := Push(t, n - k - 1), dropped + EvictedBy(t, n - k - 1);
  }

  lemma {:induction false} NotYetHeld(s: State, head: nat, n: nat, k: nat)
    requires Sorted(s.nacks) && s.cycles == 0 && s.maxSN <= head
    requires Below(s.nacks, head + 1)
    requires head < n < 0x1_0000 && n - head <= 0x8000 && k + 1 < n - head
    ensures !Holds(PushMissing(s, n, k).nacks, n - k - 1)
    decreases k, 1
  {
    var t, dropped := PushMissingMeaning(s, head, n, k, n - k - 1);
  }

  // ---------------------------------------------------------------- asking

  /** A request keeps y unless it gives it up. */
  lemma {:induction false} PairsMeaning(s: State, top: nat, y: nat)
    requires Early(s, top, y)
    ensures Early(Pairs(s), top, y)
    ensures Holds(Pairs(s).nacks, y) <==> Holds(s.nacks, y) && y !in GivenUp(s)
    ensures y in GivenUp(s) ==> Holds(s.nacks, y)
  {
    var q := s.nacks;
    SurvivorsSorted(q);
    SurvivorsUnder(q, top + 1);
    SurvivorsMeaning(q, y);
  }

  // ---------------------------------------------------------------- the ledger

  /** What is kept about one number y: queued exactly while it is missing and not gone. */
  predicate Settled(loss: State, head: nat, added: set<nat>, gone: set<nat>, first: nat, y: nat) {
    && Early(loss, head, y)
    && (Holds(loss.nacks, y) <==> first <= y <= head && y !in added && y !in gone)
    && (y in gone ==> first <= y <= head)
    && (y in added ==> y <= head)
  }

  /** From a pushed gap to the standing after the request. */
  lemma {:induction false} AskedSettled(
      noted: State, top: nat, dropped: set<nat>, before: bool, head: nat, added: set<nat>, gone: set<nat>,
      first: nat, n: nat, y: nat)
      returns (asked: State)
    requires first <= head + 1 && head < n && top <= n
    requires Tally(noted, top, before, n, n - head - 1, y, dropped)
    requires before <==> first <= y <= head && y !in added && y !in gone
    requires (y in gone ==> first <= y <= head) && (y in added ==> y <= head)
    ensures asked == Pairs(noted)
    ensures Settled(asked, n, added + {n}, gone + dropped + GivenUp(noted), first, y)
  {
    PairsMeaning(noted, top, y);
    asked := Pairs(noted);
    EarlyWiden(asked, top, n, y);
    var gone' := gone + dropped + GivenUp(noted);
    assert y in gone' <==> y in gone || y in dropped || y in GivenUp(noted);
  }

  /** The newest packet: the gap is pushed, the queue asked, the packet added. */
  lemma {:induction false} LatestSettled(loss: State, head: nat, added: set<nat>, gone: set<nat>, first: nat, n: nat, y: nat)
      returns (noted: State, dropped: set<nat>, asked: State)
    requires Settled(loss, head, added, gone, first, y)
    requires first <= head + 1 && head < n < 0x1_0000 && n - head <= 0x8000
    ensures noted == PushMissing(loss, n, n - head - 1) && dropped == EvictedAll(loss, n, n - head - 1)
    ensures asked == Pairs(noted)
    ensures Settled(asked, n, added + {n}, gone + dropped + GivenUp(noted), first, y)
  {
    hide LossQueue.Push, LossQueue.Pairs, PushMissing, EvictedAll, GivenUp;
    var k := n - head - 1;
    noted, dropped := PushMissingMeaning(loss, head, n, k, y);
    asked := AskedSettled(noted, if k == 0 then head else n - 1, dropped, Holds(loss.nacks, y),
                          head, added, gone, first, n, y);
  }

  lemma {:induction false} EarlyWiden(s: State, top: nat, n: nat, y: nat)
    requires Early(s, top, y) && top <= n
    ensures Early(s, n, y)
  {
  }

  /** A late packet leaves the queue, and no other number's standing changes. */
  lemma {:induction false} LateSettled(loss: State, head: nat, added: set<nat>, gone: set<nat>, first: nat, n: nat, y: nat)
    requires Settled(loss, head, added, gone, first, y)
    requires 0 < n <= head && n < 0x1_0000 && Single(loss.nacks, n)
    ensures Settled(Remove(loss, n), head, added + {n}, gone, first, y)
  {
    assert Extended(loss, n) == n;
    RemoveMeaning(loss.nacks, n, y);
    RemovedSorted(loss.nacks, n);
    RemovedUnder(loss.nacks, n, head + 1);
  }

  // ---------------------------------------------------------------- whole runs

  /** A fresh cache of maxSteps slots with a fresh loss queue, about to receive number `first`. */
  function Opening(maxSteps: nat, first: nat): Ledger
    requires first > 0
  {
    Ledger(EmptyRing(maxSteps), NEW_STATE, first - 1, {}, {})
  }

  function Entered(maxSteps: nat, first: nat, adds: seq<Add>): (l: Ledger)
    requires maxSteps > 0 && first > 0
    ensures l.ring.step < |l.ring.slots| == maxSteps
  {
    if adds == [] then Opening(maxSteps, first)
    else Enter(Entered(maxSteps, first, adds[..|adds| - 1]), adds[|adds| - 1])
  }

  predicate CycleRun(maxSteps: nat, first: nat, adds: seq<Add>)
    requires maxSteps > 0 && first > 0
  {
    adds == [] ||
    (&& CycleRun(maxSteps, first, adds[..|adds| - 1])
     && InCycle(Entered(maxSteps, first, adds[..|adds| - 1]), adds[|adds| - 1])
     && (|adds| == 1 ==> adds[0].latest && adds[0].number == first))
  }

  /** The newest number the ring remembers is the true one. */
  predicate Tracking(l: Ledger, first: nat) {
    Started(l.ring, Wrap16(first)).headSN == l.head && first <= l.head + 1
  }

  lemma {:induction false} EnterTracks(l: Ledger, first: nat, a: Add)
    requires l.ring.step < |l.ring.slots| && 0 < first < 0x1_0000 && InCycle(l, a)
    requires Tracking(l, first) && (l.ring.init || (a.latest && a.number == first))
    ensures Tracking(Enter(l, a), first) && Enter(l, a).ring.init
    ensures a.latest ==> Missed(Started(l.ring, a.number), a.number) == a.number - l.head - 1
  {
    hide LossAfter, Noted, EvictedAll, GivenUp, Stored, Skipped, Wrap16;
    ForwardGap(l.head, a.number, first);
    AddHead(Started(l.ring, a.number), a.packet, a.number);
  }

  /** Numbers of one cycle need no reduction. */
  lemma {:induction false} ForwardGap(head: nat, n: nat, first: nat)
    requires n < 0x1_0000 && first < 0x1_0000
    ensures Wrap16(n) == n && Wrap16(first) == first
    ensures n > 0 ==> Wrap16(n - 1) == n - 1
    ensures first > 0 ==> Wrap16(first - 1) == first - 1
    ensures head < n ==> Wrap16(n - head) == n - head
  {
  }

  lemma {:induction false} AddHead(r: Ring, p: Packet, sn: uint16)
    requires r.step < |r.slots|
    ensures AddLatest(r, p, sn).headSN == sn && AddLatest(r, p, sn).init == r.init
    ensures AddLate(r, p, sn).headSN == r.headSN && AddLate(r, p, sn).init == r.init
  {
  }

  lemma {:induction false} RunTracks(maxSteps: nat, first: nat, adds: seq<Add>)
    requires maxSteps > 0 && 0 < first < 0x1_0000 && CycleRun(maxSteps, first, adds)
    ensures Tracking(Entered(maxSteps, first, adds), first)
    ensures adds != [] ==> Entered(maxSteps, first, adds).ring.init
  {
    hide Enter, InCycle;
    if adds == [] {
      OpeningTracks(maxSteps, first);
    } else {
      RunTracks(maxSteps, first, adds[..|adds| - 1]);
      EnterTracks(Entered(maxSteps, first, adds[..|adds| - 1]), first, adds[|adds| - 1]);
    }
  }

  lemma {:induction false} OpeningTracks(maxSteps: nat, first: nat)
    requires 0 < first < 0x1_0000
    ensures Tracking(Opening(maxSteps, first), first)
  {
  }

  lemma {:induction false} OpeningSettled(first: nat, y: nat)
    requires 0 < first && 0 < y < 0x1_0000
    ensures Settled(NEW_STATE, first - 1, {}, {}, first, y)
  {
  }

  /** One call keeps y's standing. */
  lemma {:induction false} EnterSettled(l: Ledger, first: nat, a: Add, y: nat)
    requires l.ring.step < |l.ring.slots| && 0 < first < 0x1_0000 && InCycle(l, a)
    requires Tracking(l, first) && (l.ring.init || (a.latest && a.number == first))
    requires Settled(l.loss, l.head, l.added, l.gone, first, y)
    requires Single(l.loss.nacks, a.number)
    ensures var l' := Enter(l, a);
            Settled(l'.loss, l'.head, l'.added, l'.gone, first, y)
  {
    hide Settled, Holds, AddPacket, Started, Missed, LossQueue.Pairs, LossQueue.Remove, PushMissing, EvictedAll, GivenUp, Single;
    EnterTracks(l, first, a);
    if a.latest {
      var noted, dropped, asked := LatestSettled(l.loss, l.head, l.added, l.gone, first, a.number, y);
      assert l.gone + dropped + GivenUp(noted) == Enter(l, a).gone;
    } else {
      LateSettled(l.loss, l.head, l.added, l.gone, first, a.number, y);
    }
  }

  lemma {:induction false} SettledSingle(loss: State, head: nat, added: set<nat>, gone: set<nat>, first: nat, y: nat)
    requires Settled(loss, head, added, gone, first, y)
    ensures Single(loss.nacks, y)
  {
  }

  lemma {:induction false} RunSettled(maxSteps: nat, first: nat, adds: seq<Add>, y: nat)
    requires maxSteps > 0 && 0 < first < 0x1_0000 && CycleRun(maxSteps, first, adds) && 0 < y < 0x1_0000
    ensures var l := Entered(maxSteps, first, adds);
            Settled(l.loss, l.head, l.added, l.gone, first, y)
  {
    hide Settled, Enter, Tracking;
    if adds == [] {
      OpeningSettled(first, y);
    } else {
      var front, a := adds[..|adds| - 1], adds[|adds| - 1];
      var l := Entered(maxSteps, first, front);
      RunSettled(maxSteps, first, front, y);
      RunSettled(maxSteps, first, front, a.number);
      SettledSingle(l.loss, l.head, l.added, l.gone, first, a.number);
      RunTracks(maxSteps, first, front);
      EnterSettled(l, first, a, y);
    }
  }

  /**
   Gap accounting: after any run within a cycle, a number the newest packet has passed is
   queued exactly when it was neither added, nor dropped to make room, nor given up after
   three requests.  In particular a number recovered late is no longer queued.
   */
  lemma {:induction false} GapsAccounted(maxSteps: nat, first: nat, adds: seq<Add>, y: nat)
    requires maxSteps > 0 && 0 < first < 0x1_0000 && CycleRun(maxSteps, first, adds)
    ensures var l := Entered(maxSteps, first, adds);
            first <= y <= l.head && y < 0x1_0000 ==> (Holds(l.loss.nacks, y) <==> y !in l.added && y !in l.gone)
  {
    if first <= y <= Entered(maxSteps, first, adds).head && y < 0x1_0000 {
      RunSettled(maxSteps, first, adds, y);
    }
  }

  // ---------------------------------------------------------------- what the callback is given

  /** What a loss callback asks for; nothing if it is not called. */
  function AskedFor(lost: Option<(seq<NackPair>, bool)>): seq<uint16> {
    if lost.Some? then ReadPairs(lost.value.0) else []
  }

  lemma {:induction false} PushMissingSpread(s: State, sn: uint16, n: nat)
    requires Spread(s.nacks)
    ensures Spread(PushMissing(s, sn, n).nacks)
  {
    hide Spread, LossQueue.Push, Wrap16;
    if n > 0 {
      PushMissingSpread(s, sn, n - 1);
      StepSpread(PushMissing(s, sn, n - 1), PushOp(Wrap16(sn - n)));
    }
  }

  lemma {:induction false} EnterSpread(l: Ledger, a: Add)
    requires l.ring.step < |l.ring.slots| && Spread(l.loss.nacks)
    ensures Spread(Enter(l, a).loss.nacks)
    ensures a.latest ==> Spread(Noted(l.loss, l.ring, Wrap16(a.number), true).nacks)
  {
    hide Spread, PushMissing, LossQueue.Pairs, LossQueue.Remove, AddPacket, EvictedAll, GivenUp, Wrap16, Missed;
    var sn := Wrap16(a.number);
    if a.latest {
      PushMissingSpread(l.loss, sn, Missed(Started(l.ring, sn), sn));
      StepSpread(Noted(l.loss, l.ring, sn, true), PairsOp);
    } else {
      StepSpread(l.loss, RemoveOp(sn));
    }
  }

  lemma {:induction false} EnteredSpread(maxSteps: nat, first: nat, adds: seq<Add>)
    requires maxSteps > 0 && first > 0
    ensures Spread(Entered(maxSteps, first, adds).loss.nacks)
  {
    hide Spread, Enter;
    if adds == [] {
      NewSpread();
    } else {
      EnteredSpread(maxSteps, first, adds[..|adds| - 1]);
      EnterSpread(Entered(maxSteps, first, adds[..|adds| - 1]), adds[|adds| - 1]);
    }
  }

  /** The loss queue when the last packet, the newest, has noted what it skips. */
  function NotedBy(maxSteps: nat, first: nat, adds: seq<Add>): State
    requires maxSteps > 0 && first > 0 && adds != []
  {
    var l, a := Entered(maxSteps, first, adds[..|adds| - 1]), adds[|adds| - 1];
    Noted(l.loss, l.ring, Wrap16(a.number), true)
  }

  lemma {:induction false} NotedReady(maxSteps: nat, first: nat, adds: seq<Add>)
    requires maxSteps > 0 && 0 < first < 0x1_0000 && CycleRun(maxSteps, first, adds)
    requires adds != [] && adds[|adds| - 1].latest
    ensures var noted := NotedBy(maxSteps, first, adds);
            && Spread(noted.nacks) && Below(noted.nacks, 0x1_0000)
            && Entered(maxSteps, first, adds).loss == LossQueue.Pairs(noted)
  {
    hide Spread, Below, AddPacket, Started, Missed, LossQueue.Pairs, PushMissing, EvictedAll, GivenUp, Wrap16, Settled,
         Tracking, InCycle;
    var front, a := adds[..|adds| - 1], adds[|adds| - 1];
    var l := Entered(maxSteps, first, front);
    EnteredSpread(maxSteps, first, front);
    EnterSpread(l, a);
    RunTracks(maxSteps, first, front);
    RunSettled(maxSteps, first, front, 1);
    NotedBelow(l, first, a);
  }

  /** What the newest packet notes stays in the cycle. */
  lemma {:induction false} NotedBelow(l: Ledger, first: nat, a: Add)
    requires l.ring.step < |l.ring.slots| && 0 < first < 0x1_0000 && InCycle(l, a) && a.latest
    requires Tracking(l, first) && (l.ring.init || a.number == first)
    requires Settled(l.loss, l.head, l.added, l.gone, first, 1)
    ensures Below(Noted(l.loss, l.ring, Wrap16(a.number), true).nacks, 0x1_0000)
  {
    hide Below, AddPacket, Started, Missed, PushMissing, EvictedAll, Wrap16, Enter;
    EnterTracks(l, first, a);
    ForwardGap(l.head, a.number, first);
    var k := a.number - l.head - 1;
    var t, dropped := PushMissingMeaning(l.loss, l.head, a.number, k, 1);
    BelowCycle(t, if k == 0 then l.head else a.number - 1);
  }

  lemma {:induction false} BelowCycle(t: State, top: nat)
    requires Early(t, top, 1) && top < 0x1_0000
    ensures Below(t.nacks, 0x1_0000)
  {
  }

  lemma {:induction false} ReadsSome(ps: seq<NackPair>)
    requires ps != []
    ensures ReadPairs(ps) != []
  {
    assert PacketList(ps[|ps| - 1]) != [];
  }

  lemma {:induction false} PendingSurvives(q: seq<Nack>, y: uint16)
    requires Spread(q) && y > 0
    ensures Pending(q, y) <==> Holds(Survivors(q), y)
  {
    SpreadIsSorted(q);
    SurvivorsMeaning(q, y);
  }

  /**
   What the loss callback is given: after any run within a cycle, the numbers named are
   exactly those the newest packet has passed that were neither added, nor dropped to
   make room, nor given up after three requests, each once and in ascending order, if the
   request is effective; if not, or if there is no such number, the callback is not called.
   */
  lemma {:induction false} MissingAreAskedFor(
      maxSteps: nat, first: nat, adds: seq<Add>, lost: Option<(seq<NackPair>, bool)>, ask: bool)
    requires maxSteps > 0 && 0 < first < 0x1_0000 && CycleRun(maxSteps, first, adds)
    requires adds != [] && adds[|adds| - 1].latest && LostOk(lost, NotedBy(maxSteps, first, adds), ask)
    ensures !Effective(NotedBy(maxSteps, first, adds)) ==> lost == None
    ensures lost.Some? ==> AskedFor(lost) != []
    ensures var l, named := Entered(maxSteps, first, adds), AskedFor(lost);
            && (forall i, j :: 0 <= i < j < |named| ==> named[i] < named[j])
            && (Effective(NotedBy(maxSteps, first, adds)) ==>
                forall y: uint16 :: y in named <==> first <= y <= l.head && y !in l.added && y !in l.gone)
  {
    hide Spread, Below, Pending, Holds, Survivors, KeyFrameSN, Entered, CycleRun, Numbers, PackEntries, NotedBy;
    var noted := NotedBy(maxSteps, first, adds);
    var l := Entered(maxSteps, first, adds);
    NoPairs([]);
    if lost.Some? {
      ReadsSome(lost.value.0);
    }
    if Effective(noted) {
      NotedReady(maxSteps, first, adds);
      NamedExactly(noted);
      forall y: uint16 | y > 0 ensures Pending(noted.nacks, y) <==> first <= y <= l.head && y !in l.added && y !in l.gone {
        PendingSurvives(noted.nacks, y);
        RunSettled(maxSteps, first, adds, y);
      }
    }
  }
}
