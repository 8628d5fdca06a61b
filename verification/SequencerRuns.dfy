/**
 What the record of sent packets promises over whole runs: everything returned was sent
 under the number asked for, no record is returned twice within a hundred milliseconds,
 and when packets are sent in order it answers like an unbounded log.
 */
module SequencerRuns {
  import opened Words
  import opened Sequencer
  import PacketRing

  datatype Event =
    | Sent(source: uint16, target: uint16, timestamp: uint32, layer: uint8, head: bool)
    | Asked(target: uint16, now: uint32)

  function Step(s: State, e: Event): (r: (State, seq<PacketMeta>))
    requires WellFormed(s)
    ensures WellFormed(r.0)
  {
    match e
    case Sent(source, target, timestamp, layer, head) => (Push(s, source, target, timestamp, layer, head), [])
    case Asked(target, now) => AskOne(s, target, now)
  }

  /** The state after a run of events, and everything returned on the way. */
  function Run(s: State, events: seq<Event>): (r: (State, seq<PacketMeta>))
    requires WellFormed(s)
    ensures WellFormed(r.0)
  {
    if events == [] then (s, [])
    else
      var (t, before) := Run(s, events[..|events| - 1]);
      var (u, now) := Step(t, events[|events| - 1]);
      (u, before + now)
  }

  function AskedInTurn(targets: seq<uint16>, now: uint32): (r: seq<Event>)
    ensures |r| == |targets|
  {
    if targets == [] then []
    else AskedInTurn(targets[..|targets| - 1], now) + [Asked(targets[|targets| - 1], now)]
  }

  /** A request for several numbers asks for one after the other at the same instant. */
  lemma {:induction false} RequestIsRun(s: State, targets: seq<uint16>, now: uint32)
    requires WellFormed(s)
    ensures Ask(s, targets, now) == Run(s, AskedInTurn(targets, now))
  {
    if targets != [] {
      var front := targets[..|targets| - 1];
      RequestIsRun(s, front, now);
      assert AskedInTurn(targets, now)[..|targets| - 1] == AskedInTurn(front, now);
    }
  }

  lemma {:induction false} RunOn(s: State, first: seq<Event>, next: seq<Event>)
    requires WellFormed(s)
    ensures var (t, a) := Run(s, first);
            var (u, b) := Run(t, next);
            Run(s, first + next) == (u, a + b)
  {
    hide Step;
    if next == [] {
      assert first + next == first && Run(s, first).1 + [] == Run(s, first).1;
    } else {
      var n := |next| - 1;
      RunOn(s, first, next[..n]);
      assert (first + next)[..|first + next| - 1] == first + next[..n] && (first + next)[|first + next| - 1] == next[n];
      var (t, a) := Run(s, first);
      var (v, b) := Run(t, next[..n]);
      var (u, m) := Step(v, next[n]);
      assert Run(s, first + next) == (u, (a + b) + m);
      assert (a + b) + m == a + (b + m);
    }
  }

  function After(events: seq<Event>): (s: State)
    ensures WellFormed(s)
  {
    Run(NewState(), events).0
  }

  /** One more event of a run. */
  lemma {:induction false} NextAfter(events: seq<Event>, k: nat)
    requires k < |events|
    ensures After(events[..k + 1]) == Step(After(events[..k]), events[k]).0
  {
    assert events[..k + 1][..k] == events[..k];
  }

  // ---------------------------------------------------------------- what is returned was sent

  predicate SentAs(e: Event, m: PacketMeta) {
    && e.Sent? && e.source == m.sourceSeqNo && e.target == m.targetSeqNo
    && e.timestamp == m.timestamp && e.layer == m.layer
  }

  predicate WasSent(events: seq<Event>, m: PacketMeta) {
    exists k :: 0 <= k < |events| && SentAs(events[k], m)
  }

  predicate Unused(m: PacketMeta) { m.(lastNack := 0) == NO_META }

  lemma {:induction false} SentEarlier(events: seq<Event>, m: PacketMeta, m': PacketMeta)
    requires events != [] && m'.(lastNack := 0) == m.(lastNack := 0)
    requires WasSent(events[..|events| - 1], m)
    ensures WasSent(events, m')
  {
    var k :| 0 <= k < |events| - 1 && SentAs(events[..|events| - 1][k], m);
    assert SentAs(events[k], m');
  }

  lemma {:induction false} StepSlot(s: State, e: Event, p: nat)
    requires WellFormed(s) && p < HISTORY
    ensures var m, m' := s.slots[p], Step(s, e).0.slots[p];
            SentAs(e, m') || m'.(lastNack := 0) == m.(lastNack := 0)
  {
  }

  lemma {:induction false} SlotsWereSent(events: seq<Event>, p: nat)
    requires p < HISTORY
    ensures Unused(After(events).slots[p]) || WasSent(events, After(events).slots[p])
  {
    if events != [] {
      var front, e := events[..|events| - 1], events[|events| - 1];
      var m, m' := After(front).slots[p], After(events).slots[p];
      SlotsWereSent(front, p);
      StepSlot(After(front), e, p);
      if SentAs(e, m') {
        assert SentAs(events[|events| - 1], m');
      } else if WasSent(front, m) {
        SentEarlier(events, m, m');
      }
    }
  }

  /**
   Whatever is returned for a nonzero number, after any run at all, carries the source
   number, timestamp and layer of a packet that was sent under that number.
   */
  lemma {:induction false} ReturnedWasSent(events: seq<Event>, target: uint16, now: uint32)
    requires target != 0 && AskOne(After(events), target, now).1 != []
    ensures var m := AskOne(After(events), target, now).1[0];
            m.targetSeqNo == target && m.lastNack == now && WasSent(events, m)
  {
    var s := After(events);
    var p := Found(s, target, now).value;
    SlotsWereSent(events, p);
    var k :| 0 <= k < |events| && SentAs(events[k], s.slots[p]);
    assert SentAs(events[k], s.slots[p].(lastNack := now));
  }

  // ---------------------------------------------------------------- throttling

  /** The clock starts above zero, never goes back and does not wrap. */
  predicate ClockOk(events: seq<Event>) {
    && (forall k :: 0 <= k < |events| && events[k].Asked? ==> events[k].now != 0)
    && forall i, j :: 0 <= i < j < |events| && events[i].Asked? && events[j].Asked? ==> events[i].now <= events[j].now
  }

  /** The entry that event k returns, if it returns one. */
  function ReturnedSlot(events: seq<Event>, k: nat): (r: Option<nat>)
    requires k < |events|
    ensures r.Some? ==> r.value < HISTORY
  {
    if events[k].Asked? then Found(After(events[..k]), events[k].target, events[k].now) else None
  }

  /** Whether event k records a new packet in entry p. */
  predicate Overwrites(events: seq<Event>, k: nat, p: nat)
    requires k < |events|
  {
    events[k].Sent? && WriteSlot(After(events[..k]), events[k].target, events[k].head) == Some(p)
  }

  function WriteSlot(s: State, target: uint16, head: bool): Option<nat>
    requires WellFormed(s)
  {
    var t := Started(s, target);
    if head then Some(Skip(t.step, if Gap(t, target) == 0 then 0 else Gap(t, target) - 1))
    else if TooOld(t, target) then None
    else Some(t.step)
  }

  lemma {:induction false} StepStamp(s: State, e: Event, p: nat)
    requires WellFormed(s) && p < HISTORY
    requires e.Sent? ==> WriteSlot(s, e.target, e.head) != Some(p)
    ensures var stamp := Step(s, e).0.slots[p].lastNack;
            stamp == if e.Asked? && Found(s, e.target, e.now) == Some(p) then e.now else s.slots[p].lastNack
  {
  }

  /** Until the entry is overwritten its stamp is no older than its return, nor newer than now. */
  lemma {:induction false} StampKept(events: seq<Event>, i: nat, j: nat, p: nat)
    requires i < j <= |events| && ClockOk(events) && p < HISTORY
    requires ReturnedSlot(events, i) == Some(p)
    requires forall k :: i < k < j ==> !Overwrites(events, k, p)
    ensures events[i].now <= After(events[..j]).slots[p].lastNack
    ensures forall k :: j <= k < |events| && events[k].Asked? ==> After(events[..j]).slots[p].lastNack <= events[k].now
    decreases j
  {
    hide Run;
    NextAfter(events, j - 1);
    assert j > i + 1 ==> !Overwrites(events, j - 1, p);
    StepStamp(After(events[..j - 1]), events[j - 1], p);
    if j > i + 1 {
      StampKept(events, i, j - 1, p);
    }
  }

  /**
   No record is returned twice within a hundred milliseconds, whether in two requests or
   inside one, as long as the clock does not go back.
   */
  lemma {:induction false} Throttled(events: seq<Event>, i: nat, j: nat, p: nat)
    requires i < j < |events| && ClockOk(events)
    requires ReturnedSlot(events, i) == Some(p) && ReturnedSlot(events, j) == Some(p)
    requires forall k :: i < k < j ==> !Overwrites(events, k, p)
    ensures events[j].now - events[i].now > 100
  {
    hide Run;
    assert ReturnedSlot(events, i).value < HISTORY;
    StampKept(events, i, j, p);
  }

  /** A request that reads entry p and finds its own number there. */
  predicate Reads(events: seq<Event>, k: nat, p: nat)
    requires k < |events| && p < HISTORY
  {
    && events[k].Asked? && LookupSlot(After(events[..k]), events[k].target) == Some(p)
    && After(events[..k]).slots[p].targetSeqNo == events[k].target
  }

  /** Between events i and j entry p is neither overwritten nor returned. */
  predicate LeftAlone(events: seq<Event>, i: nat, j: nat, p: nat)
    requires i < j <= |events|
  {
    forall k :: i < k < j ==> !Overwrites(events, k, p) && ReturnedSlot(events, k) != Some(p)
  }

  /** Left alone, an entry keeps the time of its last return. */
  lemma {:induction false} StampStays(events: seq<Event>, i: nat, j: nat, p: nat)
    requires i < j <= |events| && p < HISTORY && LeftAlone(events, i, j, p)
    ensures After(events[..j]).slots[p].lastNack == After(events[..i + 1]).slots[p].lastNack
    decreases j
  {
    hide Run, Overwrites, ReturnedSlot;
    if j > i + 1 {
      StampStays(events, i, j - 1, p);
      NextAfter(events, j - 1);
      assert !Overwrites(events, j - 1, p) && ReturnedSlot(events, j - 1) != Some(p);
      StampOfStep(events, j - 1, p);
    }
  }

  lemma {:induction false} StampOfStep(events: seq<Event>, k: nat, p: nat)
    requires k < |events| && p < HISTORY
    ensures var m, m' := After(events[..k]).slots[p], After(events[..k + 1]).slots[p];
            && (ReturnedSlot(events, k) == Some(p) ==> m'.lastNack == events[k].now)
            && (Overwrites(events, k, p) ==> m'.lastNack == 0)
            && (ReturnedSlot(events, k) != Some(p) && !Overwrites(events, k, p) ==> m'.lastNack == m.lastNack)
  {
    hide Run;
    NextAfter(events, k);
  }

  /**
   A record returned once is returned again exactly when more than a hundred milliseconds
   have gone by since: on any clock by its wrapping difference, a return at time zero being
   read as none, and on a clock that does not go back by the plain one.
   */
  lemma {:induction false} ReturnedAgain(events: seq<Event>, i: nat, j: nat, p: nat)
    requires i < j < |events| && p < HISTORY && ReturnedSlot(events, i) == Some(p)
    requires LeftAlone(events, i, j, p) && Reads(events, j, p)
    ensures ReturnedSlot(events, j) == Some(p) <==>
            events[i].now == 0 || Wrap32(events[j].now - events[i].now) > 100
    ensures ClockOk(events) ==> (ReturnedSlot(events, j) == Some(p) <==> events[j].now - events[i].now > 100)
  {
    hide Run, LeftAlone, Overwrites;
    StampStays(events, i, j, p);
    StampOfStep(events, i, p);
  }

  /** A record not returned yet is returned at the first request that reads it. */
  lemma {:induction false} ReturnedFirst(events: seq<Event>, i: nat, j: nat, p: nat)
    requires i < j < |events| && p < HISTORY && Overwrites(events, i, p)
    requires LeftAlone(events, i, j, p) && Reads(events, j, p)
    ensures ReturnedSlot(events, j) == Some(p)
  {
    hide Run, LeftAlone, Overwrites;
    StampStays(events, i, j, p);
    StampOfStep(events, i, p);
  }

  // ---------------------------------------------------------------- in-order runs answer like a log

  /**
   Every packet sent, by its true, unbounded number, with the time it was last returned;
   the number each entry of the ring was last used for; and the rotation between the two.
   */
  datatype Log = Log(head: int, records: map<int, PacketMeta>, owner: seq<Option<int>>, origin: int)

  predicate LogOk(g: Log) {
    && |g.owner| == HISTORY
    && forall p :: 0 <= p < HISTORY ==> OwnerOk(g, p)
  }

  predicate OwnerOk(g: Log, p: nat)
    requires |g.owner| == HISTORY && p < HISTORY
  {
    g.owner[p].Some? ==>
      var u := g.owner[p].value;
      u <= g.head && Place(g, u) == p && u in g.records && g.records[u].targetSeqNo == Wrap16(u)
  }

  function Place(g: Log, u: int): nat { (g.origin + u) % HISTORY }

  /** The last five hundred numbers still have their own entries. */
  predicate RecentHeld(g: Log)
    requires |g.owner| == HISTORY
  {
    forall u :: u in g.records ==>
      u <= g.head && (g.head - HISTORY < u ==> g.owner[Place(g, u)] == Some(u))
  }

  predicate Agrees(s: State, g: Log) {
    && WellFormed(s) && LogOk(g) && RecentHeld(g)
    && s.init && s.headSN == Wrap16(g.head) && s.step == Place(g, g.head + 1)
    && forall p :: 0 <= p < HISTORY ==> s.slots[p] == Entry(g, p)
  }

  function Entry(g: Log, p: nat): PacketMeta
    requires |g.owner| == HISTORY && p < HISTORY && OwnerOk(g, p)
  {
    if g.owner[p].Some? then g.records[g.owner[p].value] else NO_META
  }

  /** The next packet in order: numbers may be skipped, but by less than a cycle. */
  predicate InOrder(g: Log, u: int) { g.head < u < g.head + 0x1_0000 }

  function LogSent(g: Log, u: int, m: PacketMeta): Log
    requires |g.owner| == HISTORY
  {
    Log(u, g.records[u := m], g.owner[Place(g, u) := Some(u)], g.origin)
  }

  /** How far back the ring is searched: the write position decides. */
  predicate Reachable(g: Log, u: int) { g.head - u < HISTORY - 1 + Place(g, g.head + 1) }

  /** A sent number whose entry has not been used again. */
  predicate Held(g: Log, u: int)
    requires |g.owner| == HISTORY
  {
    g.owner[Place(g, u)] == Some(u)
  }

  /** Never returned, or more than a hundred milliseconds ago. */
  predicate Rested(m: PacketMeta, now: uint32) { m.lastNack == 0 || Wrap32(now - m.lastNack) > 100 }

  /** What the log answers to a request. */
  function LogAsked(g: Log, u: int, now: uint32): (Log, seq<PacketMeta>)
    requires LogOk(g)
  {
    assert OwnerOk(g, Place(g, u));
    if Reachable(g, u) && Held(g, u) && Rested(g.records[u], now) then
      var m := g.records[u].(lastNack := now);
      (g.(records := g.records[u := m]), [m])
    else (g, [])
  }

  lemma {:induction false} SkipIsMod(step: nat, k: nat)
    requires step < HISTORY
    ensures Skip(step, k) == (step + k) % HISTORY
  {
    hide NextStep;
    if k == 0 {
      PacketRing.ModUnique(step, 0, step, HISTORY);
    } else {
      SkipIsMod(step, k - 1);
      NextIsMod((step + k - 1) % HISTORY);
      PacketRing.ModAdd(step + k - 1, 1, HISTORY);
    }
  }

  lemma {:induction false} NextIsMod(step: nat)
    requires step < HISTORY
    ensures NextStep(step) == (step + 1) % HISTORY
  {
  }

  lemma {:induction false} SentPlaces(s: State, g: Log, u: int)
    requires WellFormed(s) && s.headSN == Wrap16(g.head) && s.step == Place(g, g.head + 1) && InOrder(g, u)
    ensures Gap(s, Wrap16(u)) == u - g.head
    ensures Skip(s.step, u - g.head - 1) == Place(g, u) && NextStep(Place(g, u)) == Place(g, u + 1)
  {
    PacketRing.GapForward(g.head, u);
    SkipIsMod(s.step, u - g.head - 1);
    PacketRing.ModAdd(g.origin + g.head + 1, u - g.head - 1, HISTORY);
    PacketRing.ModAdd(g.origin + u, 1, HISTORY);
  }

  lemma {:induction false} LogSentOk(g: Log, u: int, m: PacketMeta)
    requires LogOk(g) && g.head < u && m.targetSeqNo == Wrap16(u)
    ensures LogOk(LogSent(g, u, m))
    ensures RecentHeld(g) ==> RecentHeld(LogSent(g, u, m))
  {
    var g' := LogSent(g, u, m);
    forall p | 0 <= p < HISTORY ensures OwnerOk(g', p) {
      assert OwnerOk(g, p);
    }
    forall v | RecentHeld(g) && v in g'.records
      ensures v <= g'.head && (g'.head - HISTORY < v ==> g'.owner[Place(g', v)] == Some(v))
    {
      if v != u && g'.head - HISTORY < v {
        PacketRing.ResiduesDiffer(g.origin + v, g.origin + u, HISTORY);
      }
    }
  }

  /** Sending the next packet in order keeps the ring and the log in step. */
  lemma {:induction false} SentKeeps(s: State, g: Log, u: int, source: uint16, timestamp: uint32, layer: uint8)
    requires Agrees(s, g) && InOrder(g, u)
    ensures Agrees(Push(s, source, Wrap16(u), timestamp, layer, true),
                   LogSent(g, u, PacketMeta(source, Wrap16(u), timestamp, 0, layer)))
  {
    var m := PacketMeta(source, Wrap16(u), timestamp, 0, layer);
    var s', g' := Push(s, source, Wrap16(u), timestamp, layer, true), LogSent(g, u, m);
    SentPlaces(s, g, u);
    LogSentOk(g, u, m);
    assert s'.slots == s.slots[Place(g, u) := m];
    forall p | 0 <= p < HISTORY ensures s'.slots[p] == Entry(g', p) {
      assert OwnerOk(g, p) && OwnerOk(g', p);
    }
  }

  /** A number up to a cycle back is looked up in its own entry, or not at all. */
  lemma {:induction false} AskedPlace(s: State, g: Log, u: int)
    requires WellFormed(s) && s.headSN == Wrap16(g.head) && s.step == Place(g, g.head + 1)
    requires 0 <= g.head - u < 0x1_0000
    ensures LookupSlot(s, Wrap16(u)) == if Reachable(g, u) then Some(Place(g, u)) else None
  {
    var d := g.head - u;
    BackBy(g.head, u);
    if Reachable(g, u) {
      EntryBack(g.origin + g.head, d);
    }
  }

  lemma {:induction false} BackBy(head: int, u: int)
    requires 0 <= head - u < 0x1_0000
    ensures Wrap16(Wrap16(head) - Wrap16(u)) == head - u
  {
  }

  /** Counting back d entries from the one after x, round the ring at most once. */
  lemma {:induction false} EntryBack(x: int, d: nat)
    requires d - (x + 1) % HISTORY < HISTORY - 1
    ensures var pos := (x + 1) % HISTORY - d - 1;
            (x - d) % HISTORY == if pos >= 0 then pos else pos + HISTORY
  {
    var s := (x + 1) % HISTORY;
    var pos := s - d - 1;
    PacketRing.ModAdd(x + 1, -(d + 1), HISTORY);
    if pos >= 0 {
      PacketRing.ModUnique(pos, 0, pos, HISTORY);
    } else {
      PacketRing.ModUnique(pos, -1, pos + HISTORY, HISTORY);
    }
  }

  /**
   Two numbers of the same entry and the same sixteen low bits are at least 8192000 apart.
   */
  lemma {:induction false} SameEntrySameBits(g: Log, u: int, v: int)
    requires Place(g, u) == Place(g, v) && Wrap16(u) == Wrap16(v) && u != v
    ensures u - v <= -8_192_000 || u - v >= 8_192_000
  {
    var a, b := u / 0x1_0000 - v / 0x1_0000, (g.origin + u) / HISTORY - (g.origin + v) / HISTORY;
    assert u - v == 0x1_0000 * a;
    assert u - v == HISTORY * b;
    CommonMultiple(a, b);
  }

  lemma {:induction false} CommonMultiple(a: int, b: int)
    requires 0x1_0000 * a == HISTORY * b && a != 0
    ensures a <= -125 || a >= 125
  {
    assert 16384 * a == 125 * b;
    assert 125 * (b - 131 * a) == 9 * a;
    assert 125 * (14 * (b - 131 * a) - a) == a;
  }

  /**
   When the entry a request reads belongs to another number, it is told apart unless that
   number is 8192000 behind; an entry never used is taken for a packet numbered zero.
   */
  predicate Distinct(g: Log, u: int)
    requires |g.owner| == HISTORY
  {
    match g.owner[Place(g, u)]
    case None => Wrap16(u) != 0
    case Some(v) => u - v < 8_192_000
  }

  /**
   A request for a number up to a cycle back is answered as the log answers it: the
   record sent under exactly that number, if its entry is reached, still its own and not
   throttled, and nothing otherwise.
   */
  lemma {:induction false} AskedKeeps(s: State, g: Log, u: int, now: uint32)
    requires Agrees(s, g) && 0 <= g.head - u < 0x1_0000 && Distinct(g, u)
    ensures var (s', ms) := AskOne(s, Wrap16(u), now);
            var (g', ns) := LogAsked(g, u, now);
            ms == ns && Agrees(s', g')
  {
    AskedPlace(s, g, u);
    var p := Place(g, u);
    assert OwnerOk(g, p) && s.slots[p] == Entry(g, p);
    if Reachable(g, u) && g.owner[p].Some? && g.owner[p].value != u && s.slots[p].targetSeqNo == Wrap16(u) {
      SameEntrySameBits(g, u, g.owner[p].value);
      assert false;
    }
    if LogAsked(g, u, now).1 != [] {
      StampAgrees(s, g, u, g.records[u].(lastNack := now));
    }
  }

  /**
   After in-order packets, a number sent among the last 499 is returned with its source
   and timestamp, unless it is throttled.
   */
  lemma {:induction false} WindowFound(s: State, g: Log, u: int, now: uint32)
    requires Agrees(s, g) && u in g.records && g.head - 499 < u <= g.head
    ensures AskOne(s, Wrap16(u), now).1 ==
            if Rested(g.records[u], now) then [g.records[u].(lastNack := now)] else []
  {
    hide AskOne;
    assert g.owner[Place(g, u)] == Some(u);
    AskedKeeps(s, g, u, now);
  }

  lemma {:induction false} LogAskedOk(g: Log, u: int, now: uint32)
    requires LogOk(g)
    ensures LogOk(LogAsked(g, u, now).0)
  {
    var g' := LogAsked(g, u, now).0;
    assert OwnerOk(g, Place(g, u));
    forall p | 0 <= p < HISTORY ensures OwnerOk(g', p) {
      assert OwnerOk(g, p);
    }
  }

  lemma {:induction false} StampAgrees(s: State, g: Log, u: int, m: PacketMeta)
    requires Agrees(s, g) && Held(g, u) && m.targetSeqNo == Wrap16(u)
    ensures Agrees(s.(slots := s.slots[Place(g, u) := m]), g.(records := g.records[u := m]))
  {
    var s', g' := s.(slots := s.slots[Place(g, u) := m]), g.(records := g.records[u := m]);
    assert OwnerOk(g, Place(g, u));
    forall p | 0 <= p < HISTORY ensures OwnerOk(g', p) && s'.slots[p] == Entry(g', p) {
      assert OwnerOk(g, p) && s.slots[p] == Entry(g, p);
    }
  }

  // ---------------------------------------------------------------- whole in-order runs

  /** A packet sent in order, or a request, by true number. */
  datatype Call =
    | Send(number: nat, source: uint16, timestamp: uint32, layer: uint8)
    | Request(number: nat, now: uint32)

  function EventOf(c: Call): Event {
    match c
    case Send(u, source, timestamp, layer) => Sent(source, Wrap16(u), timestamp, layer, true)
    case Request(u, now) => Asked(Wrap16(u), now)
  }

  predicate Allowed(g: Log, c: Call)
    requires |g.owner| == HISTORY
  {
    match c
    case Send(u, _, _, _) => InOrder(g, u)
    case Request(u, _) => 0 <= g.head - u < 0x1_0000 && Distinct(g, u)
  }

  function LogStep(g: Log, c: Call): (r: (Log, seq<PacketMeta>))
    requires LogOk(g) && Allowed(g, c)
    ensures LogOk(r.0)
  {
    match c
    case Send(u, source, timestamp, layer) =>
      var m := PacketMeta(source, Wrap16(u), timestamp, 0, layer);
      LogSentOk(g, u, m);
      (LogSent(g, u, m), [])
    case Request(u, now) =>
      LogAskedOk(g, u, now);
      LogAsked(g, u, now)
  }

  /** Every call is allowed where it comes. */
  predicate AllAllowed(g: Log, calls: seq<Call>)
    requires LogOk(g)
    decreases |calls|
  {
    calls == [] || (Allowed(g, calls[0]) && AllAllowed(LogStep(g, calls[0]).0, calls[1..]))
  }

  function LogAnswers(g: Log, calls: seq<Call>): (Log, seq<PacketMeta>)
    requires LogOk(g) && AllAllowed(g, calls)
    decreases |calls|
  {
    if calls == [] then (g, [])
    else
      var (h, now) := LogStep(g, calls[0]);
      var (g', later) := LogAnswers(h, calls[1..]);
      (g', now + later)
  }

  function Answers(s: State, calls: seq<Call>): (r: (State, seq<PacketMeta>))
    requires WellFormed(s)
    ensures WellFormed(r.0)
    decreases |calls|
  {
    if calls == [] then (s, [])
    else
      var (t, now) := Step(s, EventOf(calls[0]));
      var (u, later) := Answers(t, calls[1..]);
      (u, now + later)
  }

  lemma {:induction false} CallKeeps(s: State, g: Log, c: Call)
    requires Agrees(s, g) && Allowed(g, c)
    ensures Step(s, EventOf(c)).1 == LogStep(g, c).1
    ensures Agrees(Step(s, EventOf(c)).0, LogStep(g, c).0)
  {
    match c
    case Send(u, source, timestamp, layer) => SentKeeps(s, g, u, source, timestamp, layer);
    case Request(u, now) => AskedKeeps(s, g, u, now);
  }

  /**
   Over any run of in-order packets and requests, with wraps and jumps of any length below
   a cycle, every answer is the log's answer.
   */
  lemma {:induction false} RunAnswersLikeLog(s: State, g: Log, calls: seq<Call>)
    requires Agrees(s, g) && AllAllowed(g, calls)
    ensures Answers(s, calls).1 == LogAnswers(g, calls).1
    ensures Agrees(Answers(s, calls).0, LogAnswers(g, calls).0)
    decreases |calls|
  {
    hide LogOk, Step, EventOf, LogStep;
    if calls != [] {
      CallKeeps(s, g, calls[0]);
      RunAnswersLikeLog(Step(s, EventOf(calls[0])).0, LogStep(g, calls[0]).0, calls[1..]);
    }
  }

  /**
   A packet behind the head breaks the log: it is stored at the write position instead of
   at its own place, so it is not where a request for it looks, and every older number is
   looked up one entry too far from then on.
   */
  lemma {:induction false} LatePacketShifts(s: State, source: uint16, target: uint16, timestamp: uint32, layer: uint8, asked: uint16)
    requires WellFormed(s) && s.init
    requires 0 < Wrap16(s.headSN - target) < HISTORY - 1 && 0 < Wrap16(s.headSN - asked) < HISTORY - 1
    ensures var s' := Push(s, source, target, timestamp, layer, false);
            && s'.slots[s.step] == PacketMeta(source, target, timestamp, 0, layer)
            && LookupSlot(s', target) != Some(s.step)
            && LookupSlot(s', asked) == LookupSlot(s, Wrap16(asked + 1))
  {
    PacketRing.StepBack(s.headSN, asked);
    hide Wrap16;
    var s' := Push(s, source, target, timestamp, layer, false);
    assert s' == Stored(s, PacketMeta(source, target, timestamp, 0, layer));
  }

  /** The newest packet just recorded is found at once, whatever the record held before. */
  lemma {:induction false} NewestFound(s: State, source: uint16, target: uint16, timestamp: uint32, layer: uint8, now: uint32)
    requires WellFormed(s)
    ensures AskOne(Push(s, source, target, timestamp, layer, true), target, now).1 ==
            [PacketMeta(source, target, timestamp, now, layer)]
  {
    hide Skip;
    var t := Started(s, target);
    var k := if Gap(t, target) == 0 then 0 else Gap(t, target) - 1;
    SkipIsMod(t.step, k);
    var p := Skip(t.step, k);
    assert Push(s, source, target, timestamp, layer, true).step == NextStep(p);
    assert LookupSlot(Push(s, source, target, timestamp, layer, true), target) == Some(p);
  }

  /**
   A packet behind the head leaves the record as it was exactly when it is five hundred or
   more entries behind the write position.
   */
  lemma {:induction false} LateRefused(s: State, source: uint16, target: uint16, timestamp: uint32, layer: uint8)
    requires WellFormed(s) && s.init
    ensures Push(s, source, target, timestamp, layer, false) == s <==> Wrap16(s.headSN - target) as int - s.step >= 500
  {
    hide Wrap16;
  }

  /** The first packet sent, newest or not, puts the log in step with the ring. */
  lemma {:induction false} FirstSend(u: int, source: uint16, timestamp: uint32, layer: uint8, head: bool)
    ensures var m := PacketMeta(source, Wrap16(u), timestamp, 0, layer);
            Agrees(Push(NewState(), source, Wrap16(u), timestamp, layer, head), FirstLog(u, m))
  {
    var m := PacketMeta(source, Wrap16(u), timestamp, 0, layer);
    var s', g' := Push(NewState(), source, Wrap16(u), timestamp, layer, head), FirstLog(u, m);
    assert s'.slots == NewState().slots[0 := m];
    PacketRing.ModUnique(0, 0, 0, HISTORY);
    PacketRing.ModUnique(1, 0, 1, HISTORY);
    forall p | 0 <= p < HISTORY ensures OwnerOk(g', p) && s'.slots[p] == Entry(g', p) {
    }
  }

  function FirstLog(u: int, m: PacketMeta): Log {
    Log(u, map[u := m], seq(HISTORY, p => if p == 0 then Some(u) else None), -u)
  }
}
