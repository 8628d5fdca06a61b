/**
 Outgoing continuity over whole runs: with any number of source changes, the packets that
 a receiver counts as newest carry strictly increasing true numbers, a new source carries
 on right after the last number, and within one source the spacing is kept.
 */
module DownTrackRuns {
  import opened Words
  import opened DownTrack

  /** A new binding, a change of simulcast layers, or a packet with its true number. */
  datatype Event =
    | Rebind
    | Layers(current: uint16, target: uint16)
    | Arrives(number: nat, e: ExtPacket)

  /** The outgoing identity plays no part in the numbering. */
  function Next(mode: Mode, t: Track, v: Event): Track {
    match v
    case Rebind => t.(reSync := true)
    case Layers(current, target) => t.(currentLayer := current, targetLayer := target)
    case Arrives(_, e) => Write(mode, t, e, 0, 0).0
  }

  function SentBy(mode: Mode, t: Track, v: Event): Option<RtpPacket> {
    if v.Arrives? then Write(mode, t, v.e, 0, 0).1.sent else None
  }

  /** Whether a packet, if sent, is the first one of a new source. */
  predicate NewSource(mode: Mode, t: Track, p: RtpPacket) {
    if mode.Simple? then t.reSync else t.lastTSCalc == 0 || t.lastSSRC != p.ssrc
  }

  /**
   The intended numbering, without wraps: the current source's offset, the last number
   sent as newest, and the newest number seen from the current source.
   */
  datatype Flow = Flow(started: bool, offset: int, lastOut: int, newest: int)

  const STILL := Flow(false, 0, 0, 0)

  function Max(a: int, b: int): int { if a >= b then a else b }

  function FlowOffset(mode: Mode, f: Flow, t: Track, n: int, p: RtpPacket): int {
    if f.started && NewSource(mode, t, p) then n - f.lastOut - 1 else f.offset
  }

  /** The true number a packet goes out under. */
  function Out(mode: Mode, f: Flow, t: Track, n: int, p: RtpPacket): int {
    n - FlowOffset(mode, f, t, n, p)
  }

  function FlowSent(mode: Mode, f: Flow, t: Track, n: int, e: ExtPacket): Flow {
    Flow(f.started || e.head || mode == Simulcast,
         FlowOffset(mode, f, t, n, e.packet),
         if e.head || (mode == Simulcast && !f.started) then Out(mode, f, t, n, e.packet) else f.lastOut,
         if NewSource(mode, t, e.packet) then n else Max(f.newest, n))
  }

  function FlowNext(mode: Mode, f: Flow, t: Track, v: Event): Flow {
    if SentBy(mode, t, v).Some? then FlowSent(mode, f, t, v.number, v.e) else f
  }

  /**
   The runs continuity is promised for: newest packets of one source really are newer,
   arrival times are never zero, and a plain source is not changed while the last number
   sent is zero.
   */
  predicate Proper(mode: Mode, f: Flow, t: Track, v: Event) {
    v.Arrives? ==>
      && v.e.packet.sn == Wrap16(v.number) && v.e.arrival != 0
      && (SentBy(mode, t, v).Some? ==>
          && (v.e.head && !NewSource(mode, t, v.e.packet) ==> v.number > f.newest)
          && (mode.Simple? && f.started && NewSource(mode, t, v.e.packet) ==> t.lastSN != 0))
  }

  predicate Tied(mode: Mode, t: Track, f: Flow) {
    && t.snOffset == Wrap16(f.offset)
    && (f.started ==> t.lastSN == Wrap16(f.lastOut) && f.lastOut <= f.newest - f.offset)
    && (!f.started ==> f.offset == 0 && (mode.Simple? ==> t.lastSN == 0))
    && (mode == Simulcast ==> (f.started <==> t.lastTSCalc != 0))
  }

  // ---------------------------------------------------------------- one step

  lemma {:induction false} WrapShift(x: int, k: int)
    ensures Wrap16(x + 0x1_0000 * k) == Wrap16(x)
  {
  }

  lemma {:induction false} WrapMinus(a: int, b: int)
    ensures Wrap16(Wrap16(a) - Wrap16(b)) == Wrap16(a - b)
    ensures Wrap16(Wrap16(a) - Wrap16(b) - 1) == Wrap16(a - b - 1)
  {
    var k := b / 0x1_0000 - a / 0x1_0000;
    assert Wrap16(a) as int - Wrap16(b) as int == a - b + 0x1_0000 * k;
    hide Wrap16;
    WrapShift(a - b, k);
    WrapShift(a - b - 1, k);
  }

  lemma {:induction false} SimpleTied(video: bool, t: Track, f: Flow, n: nat, e: ExtPacket)
    requires Tied(Simple(video), t, f) && Proper(Simple(video), f, t, Arrives(n, e))
    requires SentBy(Simple(video), t, Arrives(n, e)).Some?
    ensures Tied(Simple(video), Write(Simple(video), t, e, 0, 0).0, FlowSent(Simple(video), f, t, n, e))
    ensures SentBy(Simple(video), t, Arrives(n, e)).value.sn == Wrap16(Out(Simple(video), f, t, n, e.packet))
  {
    var u := SimpleSynced(t, e.packet);
    WrapMinus(n, f.lastOut);
    assert u.snOffset == Wrap16(FlowOffset(Simple(video), f, t, n, e.packet));
    WrapMinus(n, FlowOffset(Simple(video), f, t, n, e.packet));
  }

  lemma {:induction false} SimulcastTied(t: Track, f: Flow, n: nat, e: ExtPacket)
    requires Tied(Simulcast, t, f) && Proper(Simulcast, f, t, Arrives(n, e))
    requires SentBy(Simulcast, t, Arrives(n, e)).Some?
    ensures Tied(Simulcast, Write(Simulcast, t, e, 0, 0).0, FlowSent(Simulcast, f, t, n, e))
    ensures SentBy(Simulcast, t, Arrives(n, e)).value.sn == Wrap16(Out(Simulcast, f, t, n, e.packet))
  {
    hide TimeStep, TruncDiv;
    var u := SimulcastSynced(Switched(Waited(t, e), e.packet), e);
    WrapMinus(n, f.lastOut);
    assert u.snOffset == Wrap16(FlowOffset(Simulcast, f, t, n, e.packet));
    WrapMinus(n, FlowOffset(Simulcast, f, t, n, e.packet));
  }

  lemma {:induction false} QuietTied(mode: Mode, t: Track, f: Flow, v: Event)
    requires Tied(mode, t, f) && Proper(mode, f, t, v) && SentBy(mode, t, v).None?
    ensures Tied(mode, Next(mode, t, v), f)
  {
    hide TimeStep, TruncDiv;
  }

  /** Every step keeps the wrapped fields tied to the intended numbering. */
  lemma {:induction false} StepTied(mode: Mode, t: Track, f: Flow, v: Event)
    requires Tied(mode, t, f) && Proper(mode, f, t, v)
    ensures Tied(mode, Next(mode, t, v), FlowNext(mode, f, t, v))
    ensures SentBy(mode, t, v).Some? ==> SentBy(mode, t, v).value.sn == Wrap16(Out(mode, f, t, v.number, v.e.packet))
  {
    hide Tied, Proper, FlowSent, WriteSimple, WriteSimulcast, Out;
    if SentBy(mode, t, v).None? {
      QuietTied(mode, t, f, v);
    } else {
      match mode
      case Simple(video) => SimpleTied(video, t, f, v.number, v.e);
      case Simulcast => SimulcastTied(t, f, v.number, v.e);
    }
  }

  // ---------------------------------------------------------------- whole runs

  function Reached(mode: Mode, events: seq<Event>): (Track, Flow) {
    if events == [] then (BOUND, STILL)
    else
      var (t, f) := Reached(mode, events[..|events| - 1]);
      var v := events[|events| - 1];
      (Next(mode, t, v), FlowNext(mode, f, t, v))
  }

  predicate ProperRun(mode: Mode, events: seq<Event>) {
    forall k :: 0 <= k < |events| ==>
      Proper(mode, Reached(mode, events[..k]).1, Reached(mode, events[..k]).0, events[k])
  }

  lemma {:induction false} NextReached(mode: Mode, events: seq<Event>, k: nat)
    requires k < |events|
    ensures Reached(mode, events[..k + 1]) ==
            (Next(mode, Reached(mode, events[..k]).0, events[k]),
             FlowNext(mode, Reached(mode, events[..k]).1, Reached(mode, events[..k]).0, events[k]))
  {
    assert events[..k + 1][..k] == events[..k];
  }

  lemma {:induction false} RunTied(mode: Mode, events: seq<Event>, k: nat)
    requires ProperRun(mode, events) && k <= |events|
    ensures Tied(mode, Reached(mode, events[..k]).0, Reached(mode, events[..k]).1)
  {
    if k == 0 {
    } else {
      hide Tied, Proper, Next, FlowNext, Reached;
      RunTied(mode, events, k - 1);
      NextReached(mode, events, k - 1);
      StepTied(mode, Reached(mode, events[..k - 1]).0, Reached(mode, events[..k - 1]).1, events[k - 1]);
    }
  }

  function Sent(mode: Mode, events: seq<Event>, k: nat): Option<RtpPacket>
    requires k < |events|
  {
    SentBy(mode, Reached(mode, events[..k]).0, events[k])
  }

  /** The true number that event k's packet goes out under. */
  function OutNumber(mode: Mode, events: seq<Event>, k: nat): int
    requires k < |events| && events[k].Arrives?
  {
    Out(mode, Reached(mode, events[..k]).1, Reached(mode, events[..k]).0, events[k].number, events[k].e.packet)
  }

  predicate SentHead(mode: Mode, events: seq<Event>, k: nat)
    requires k < |events|
  {
    Sent(mode, events, k).Some? && events[k].e.head
  }

  lemma {:induction false} FlowClimbs(mode: Mode, t: Track, f: Flow, v: Event)
    requires Tied(mode, t, f) && Proper(mode, f, t, v) && f.started
    ensures var f' := FlowNext(mode, f, t, v);
            && f'.started && f'.lastOut >= f.lastOut
            && (SentBy(mode, t, v).Some? && v.e.head ==>
                f'.lastOut == Out(mode, f, t, v.number, v.e.packet) > f.lastOut)
  {
    hide Write;
  }

  /** After event i, every later state remembers at least its number. */
  lemma {:induction false} LastOutClimbs(mode: Mode, events: seq<Event>, i: nat, j: nat)
    requires ProperRun(mode, events) && i < j <= |events| && SentHead(mode, events, i)
    ensures Reached(mode, events[..j]).1.started
    ensures Reached(mode, events[..j]).1.lastOut >= OutNumber(mode, events, i)
    decreases j
  {
    hide Tied, Proper, SentBy, Reached, Next;
    NextReached(mode, events, j - 1);
    if j > i + 1 {
      LastOutClimbs(mode, events, i, j - 1);
      RunTied(mode, events, j - 1);
      FlowClimbs(mode, Reached(mode, events[..j - 1]).0, Reached(mode, events[..j - 1]).1, events[j - 1]);
    }
  }

  /**
   Newest packets go out under strictly increasing true numbers, however often the source
   changes, and the number on the wire is the low half of the true one.
   */
  lemma {:induction false} HeadsIncrease(mode: Mode, events: seq<Event>, i: nat, j: nat)
    requires ProperRun(mode, events) && i < j < |events|
    requires SentHead(mode, events, i) && SentHead(mode, events, j)
    ensures OutNumber(mode, events, i) < OutNumber(mode, events, j)
    ensures Sent(mode, events, j).value.sn == Wrap16(OutNumber(mode, events, j))
  {
    hide Tied, Proper, SentBy, Reached, Next, FlowNext, Out;
    LastOutClimbs(mode, events, i, j);
    RunTied(mode, events, j);
    var (t, f) := Reached(mode, events[..j]);
    FlowClimbs(mode, t, f, events[j]);
    StepTied(mode, t, f, events[j]);
  }

  /** The first packet of a new source carries on right after the last newest packet. */
  lemma {:induction false} SourceCarriesOn(mode: Mode, events: seq<Event>, k: nat)
    requires ProperRun(mode, events) && k < |events| && Sent(mode, events, k).Some?
    requires Reached(mode, events[..k]).1.started
    requires NewSource(mode, Reached(mode, events[..k]).0, events[k].e.packet)
    ensures OutNumber(mode, events, k) == Reached(mode, events[..k]).1.lastOut + 1
    ensures Sent(mode, events, k).value.sn == Wrap16(Reached(mode, events[..k]).0.lastSN + 1)
  {
    hide SentBy, Reached, Next, Proper;
    RunTied(mode, events, k);
    StepTied(mode, Reached(mode, events[..k]).0, Reached(mode, events[..k]).1, events[k]);
  }

  // ---------------------------------------------------------------- within one source

  /** The offsets in force when a packet was written. */
  lemma {:induction false} SentWithOffsets(mode: Mode, t: Track, v: Event)
    requires SentBy(mode, t, v).Some?
    ensures var t', sent := Next(mode, t, v), SentBy(mode, t, v).value;
            && sent.sn == Wrap16(v.e.packet.sn - t'.snOffset) && sent.ts == Wrap32(v.e.packet.ts - t'.tsOffset)
            && sent.payload == v.e.packet.payload
  {
    hide TimeStep, TruncDiv;
  }

  lemma {:induction false} OffsetsKept(mode: Mode, t: Track, v: Event)
    requires SentBy(mode, t, v).Some? ==> !NewSource(mode, t, v.e.packet)
    ensures Next(mode, t, v).snOffset == t.snOffset && Next(mode, t, v).tsOffset == t.tsOffset
  {
    hide TimeStep, TruncDiv;
  }

  predicate ChangesSource(mode: Mode, events: seq<Event>, k: nat)
    requires k < |events|
  {
    Sent(mode, events, k).Some? && NewSource(mode, Reached(mode, events[..k]).0, events[k].e.packet)
  }

  lemma {:induction false} OffsetsConstant(mode: Mode, events: seq<Event>, i: nat, j: nat)
    requires i < j <= |events| && forall k :: i < k < j ==> !ChangesSource(mode, events, k)
    ensures var t, t' := Reached(mode, events[..i + 1]).0, Reached(mode, events[..j]).0;
            t'.snOffset == t.snOffset && t'.tsOffset == t.tsOffset
    decreases j
  {
    hide Reached, SentBy, Next, FlowNext;
    if j > i + 1 {
      OffsetsConstant(mode, events, i, j - 1);
      NextReached(mode, events, j - 1);
      assert !ChangesSource(mode, events, j - 1);
      OffsetsKept(mode, Reached(mode, events[..j - 1]).0, events[j - 1]);
    }
  }

  /**
   Between two packets of one source, numbers and timestamps keep their distances, and the
   payload is the publisher's, in any run at all.
   */
  lemma {:induction false} SpacingKept(mode: Mode, events: seq<Event>, i: nat, j: nat)
    requires i < j < |events| && Sent(mode, events, i).Some? && Sent(mode, events, j).Some?
    requires forall k :: i < k <= j ==> !ChangesSource(mode, events, k)
    ensures var a, b := Sent(mode, events, i).value, Sent(mode, events, j).value;
            && Wrap16(b.sn - a.sn) == Wrap16(events[j].e.packet.sn - events[i].e.packet.sn)
            && Wrap32(b.ts - a.ts) == Wrap32(events[j].e.packet.ts - events[i].e.packet.ts)
            && a.payload == events[i].e.packet.payload && b.payload == events[j].e.packet.payload
  {
    hide Reached, SentBy, Next, FlowNext;
    OffsetsConstant(mode, events, i, j + 1);
    NextReached(mode, events, i);
    NextReached(mode, events, j);
    SentWithOffsets(mode, Reached(mode, events[..i]).0, events[i]);
    SentWithOffsets(mode, Reached(mode, events[..j]).0, events[j]);
  }

  // ---------------------------------------------------------------- source changes, exactly

  /**
   Taking up a plain source carries on right after the last number exactly when that
   number is not zero, or the old offset happens to give the number one.
   */
  lemma {:induction false} SimpleContinues(video: bool, t: Track, e: ExtPacket)
    requires t.reSync && (video ==> e.keyFrame)
    ensures WriteSimple(t, video, e, 0, 0).1.sent.Some?
    ensures WriteSimple(t, video, e, 0, 0).1.sent.value.sn == Wrap16(t.lastSN + 1)
            <==> t.lastSN != 0 || Wrap16(e.packet.sn - t.snOffset) == 1
    ensures t.lastSN != 0 ==> WriteSimple(t, video, e, 0, 0).1.sent.value.ts == Wrap32(t.lastTS + 1)
  {
    hide Wrap16, Wrap32;
    NextNumber(e.packet.sn, t.lastSN);
    NextTimestamp(e.packet.ts, t.lastTS);
  }

  lemma {:induction false} NextNumber(sn: uint16, last: uint16)
    ensures Wrap16(sn - Wrap16(sn - last - 1)) == Wrap16(last + 1)
    ensures Wrap16(0 + 1) == 1
  {
  }

  lemma {:induction false} NextTimestamp(ts: uint32, last: uint32)
    ensures Wrap32(ts - Wrap32(ts - last - 1)) == Wrap32(last + 1)
  {
  }

  /** A run in which the last number wraps to zero just before the source changes. */
  lemma {:induction false} ZeroReadAsUnset(p: RtpPacket)
    requires p.sn == 5000
    ensures var first := Arrives(0x1_0000, ExtPacket(true, 1, true, p.(sn := 0)));
            var events := [first, Rebind, Arrives(5000, ExtPacket(true, 2, true, p))];
            SentHead(Simple(true), events, 0) && Sent(Simple(true), events, 0).value.sn == 0
            && SentHead(Simple(true), events, 2) && Sent(Simple(true), events, 2).value.sn == 5000
  {
    var first := Arrives(0x1_0000, ExtPacket(true, 1, true, p.(sn := 0)));
    var events := [first, Rebind, Arrives(5000, ExtPacket(true, 2, true, p))];
    NextReached(Simple(true), events, 0);
    NextReached(Simple(true), events, 1);
    assert events[..0] == [];
  }

  /** Whether b comes after a, as wrapping timestamps are compared. */
  predicate Later(a: uint32, b: uint32) { 0 < Wrap32(b - a) < 0x8000_0000 }

  /** The time a switch counts: none when the track was bound again meanwhile. */
  function Elapsed(t: Track, e: ExtPacket): int {
    if t.reSync then 0 else e.arrival - t.lastTSCalc
  }

  /** Nanoseconds after which a time step no longer fits half the timestamp range: 276 days. */
  const HALF_RANGE := 23_860_929_423_000_000

  /**
   The first packet of another simulcast source, taken up at a change of layer or after a
   new binding, carries on right after the last number, and its timestamp is later than
   the last one exactly when its arrival is less than twelve milliseconds before the last
   packet's, and less than half the timestamp range after it.
   */
  lemma {:induction false} SwitchContinues(t: Track, e: ExtPacket)
    requires t.lastTSCalc != 0 && t.lastSSRC != e.packet.ssrc && e.arrival != 0
    requires WriteSimulcast(t, e, 0, 0).1.sent.Some?
    requires -HALF_RANGE < Elapsed(t, e) < 2 * HALF_RANGE - 2_000_000
    ensures var sent := WriteSimulcast(t, e, 0, 0).1.sent.value;
            && sent.sn == Wrap16(t.lastSN + 1)
            && sent.ts == Wrap32(t.lastTS + TimeStep(Elapsed(t, e)))
            && (Later(t.lastTS, sent.ts) <==> -12_000_000 < Elapsed(t, e) < HALF_RANGE)
  {
    hide TimeStep, TruncDiv, Later, Stray;
    var step := TimeStep(Elapsed(t, e));
    StepRange(Elapsed(t, e));
    SwitchOffsets(t, e.packet.sn, e.packet.ts, step);
    var u := SimulcastSynced(Switched(Waited(t, e), e.packet), e);
    assert WriteSimulcast(t, e, 0, 0).1.sent == Some(Rewritten(u, e.packet, 0, 0));
  }

  /** Arrivals are never zero, never go back, and span less than half the timestamp range. */
  predicate ClockForward(events: seq<Event>) {
    && (forall i :: 0 <= i < |events| && events[i].Arrives? ==> events[i].e.arrival != 0)
    && forall i, j :: 0 <= i < j < |events| && events[i].Arrives? && events[j].Arrives? ==>
         0 <= events[j].e.arrival - events[i].e.arrival < HALF_RANGE
  }

  /** What the offsets of a switch make of the packet's own number and timestamp. */
  lemma {:induction false} SwitchOffsets(t: Track, sn: uint16, ts: uint32, step: uint32)
    requires step > 0
    ensures Wrap16(sn - Wrap16(sn - t.lastSN - 1)) == Wrap16(t.lastSN + 1)
    ensures Wrap32(ts - Wrap32(ts - Wrap32(t.lastTS + step))) == Wrap32(t.lastTS + step)
    ensures Later(t.lastTS, Wrap32(t.lastTS + step)) <==> step < 0x8000_0000
  {
  }

  lemma {:induction false} StepRange(elapsed: int)
    requires -HALF_RANGE < elapsed < 2 * HALF_RANGE - 2_000_000
    ensures 1 <= TimeStep(elapsed)
    ensures TimeStep(elapsed) < 0x8000_0000 <==> -12_000_000 < elapsed < HALF_RANGE
  {
  }
}
