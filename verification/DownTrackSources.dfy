/**
 Source changes on what a subscriber sees: which packets are taken up, held back or
 dropped, and how number and timestamp of a new source follow those of packets actually
 sent.  Nothing here is said in terms of the fields that the rewriting keeps.
 */
module DownTrackSources {
  import opened Words
  import opened DownTrack
  import opened DownTrackRuns

  /** The fields after the first k events. */
  function At(mode: Mode, events: seq<Event>, k: nat): Track
    requires k <= |events|
  {
    Reached(mode, events[..k]).0
  }

  function EffectAt(mode: Mode, events: seq<Event>, k: nat): Effect
    requires k < |events|
  {
    if events[k].Arrives? then Write(mode, At(mode, events, k), events[k].e, 0, 0).1 else NOTHING
  }

  lemma {:induction false} AtNext(mode: Mode, events: seq<Event>, k: nat)
    requires k < |events|
    ensures At(mode, events, 0) == BOUND
    ensures At(mode, events, k + 1) == Next(mode, At(mode, events, k), events[k])
    ensures Sent(mode, events, k) == SentBy(mode, At(mode, events, k), events[k])
  {
    NextReached(mode, events, k);
  }

  // ---------------------------------------------------------------- seen from outside

  /** Nothing was sent since the last binding. */
  predicate Unsynced(mode: Mode, events: seq<Event>, k: nat)
    requires k <= |events|
  {
    forall i :: 0 <= i < k && Sent(mode, events, i).Some? ==> exists r :: i < r < k && events[r].Rebind?
  }

  /** The source of the last packet sent, zero before any. */
  function LastSource(mode: Mode, events: seq<Event>, k: nat): uint32
    requires k <= |events|
  {
    if k == 0 then 0
    else if Sent(mode, events, k - 1).Some? then events[k - 1].e.packet.ssrc
    else LastSource(mode, events, k - 1)
  }

  /** The source of the first packet sent since the last binding that was followed by one. */
  function SourceTakenUp(mode: Mode, events: seq<Event>, k: nat): uint32
    requires k <= |events|
  {
    if k == 0 then 0
    else if Unsynced(mode, events, k - 1) && Sent(mode, events, k - 1).Some? then events[k - 1].e.packet.ssrc
    else SourceTakenUp(mode, events, k - 1)
  }

  /** A packet that is not of the source last sent since the last binding. */
  predicate AtChange(mode: Mode, events: seq<Event>, k: nat)
    requires k < |events| && events[k].Arrives?
  {
    Unsynced(mode, events, k) || LastSource(mode, events, k) != events[k].e.packet.ssrc
  }

  /** The layer in use and the layer wanted: set from outside, and by a change as the code writes it. */
  function Layering(events: seq<Event>, k: nat): (uint16, uint16)
    requires k <= |events|
  {
    if k == 0 then (0, 0)
    else match events[k - 1]
      case Rebind => Layering(events, k - 1)
      case Layers(current, target) => (current, target)
      case Arrives(_, _) =>
        if AtChange(Simulcast, events, k - 1) && Sent(Simulcast, events, k - 1).Some?
        then (Layering(events, k - 1).1, 0) else Layering(events, k - 1)
  }

  /** A packet of another source while no other layer is wanted. */
  predicate Strayed(events: seq<Event>, k: nat)
    requires k < |events| && events[k].Arrives?
  {
    && !Unsynced(Simulcast, events, k)
    && LastSource(Simulcast, events, k) !in {0, events[k].e.packet.ssrc}
    && Layering(events, k).0 == Layering(events, k).1
  }

  // ---------------------------------------------------------------- the fields are what is seen

  lemma {:induction false} StepSyncs(mode: Mode, t: Track, v: Event)
    ensures Next(mode, t, v).reSync <==> v.Rebind? || (t.reSync && SentBy(mode, t, v).None?)
    ensures mode == Simulcast ==>
              Next(mode, t, v).lastSSRC == if SentBy(mode, t, v).Some? then v.e.packet.ssrc else t.lastSSRC
    ensures mode != Simulcast ==>
              Next(mode, t, v).lastSSRC == if SentBy(mode, t, v).Some? && t.reSync then v.e.packet.ssrc else t.lastSSRC
  {
    hide TimeStep, TruncDiv, Wrap16, Wrap32;
  }

  lemma {:induction false} SentArrives(mode: Mode, events: seq<Event>, k: nat)
    requires k < |events| && Sent(mode, events, k).Some?
    ensures events[k].Arrives?
  {
    hide Reached;
  }

  lemma {:induction false} UnsyncedNext(mode: Mode, events: seq<Event>, k: nat)
    requires k < |events|
    ensures Unsynced(mode, events, k + 1) <==>
            events[k].Rebind? || (Unsynced(mode, events, k) && Sent(mode, events, k).None?)
  {
    hide SentBy, Reached;
    if Sent(mode, events, k).Some? {
      SentArrives(mode, events, k);
    }
    if !events[k].Rebind? && Unsynced(mode, events, k + 1) {
      forall i | 0 <= i < k && Sent(mode, events, i).Some? ensures exists r :: i < r < k && events[r].Rebind? {
        var r :| i < r < k + 1 && events[r].Rebind?;
        assert r != k;
      }
    }
  }

  /**
   The flag says whether nothing was sent since the last binding; the source remembered is
   on a simulcast track that of the last packet sent, on a plain one that last taken up.
   */
  lemma {:induction false} SyncIs(mode: Mode, events: seq<Event>, k: nat)
    requires k <= |events|
    ensures At(mode, events, k).reSync <==> Unsynced(mode, events, k)
    ensures mode == Simulcast ==> At(mode, events, k).lastSSRC == LastSource(mode, events, k)
    ensures mode != Simulcast ==> At(mode, events, k).lastSSRC == SourceTakenUp(mode, events, k)
  {
    if k > 0 {
      hide Unsynced, At, Sent, Next, SentBy;
      SyncIs(mode, events, k - 1);
      AtNext(mode, events, k - 1);
      UnsyncedNext(mode, events, k - 1);
      StepSyncs(mode, At(mode, events, k - 1), events[k - 1]);
    }
  }

  lemma {:induction false} StepLayers(t: Track, v: Event)
    ensures var t' := Next(Simulcast, t, v);
            (t'.currentLayer, t'.targetLayer) ==
            match v
            case Rebind => (t.currentLayer, t.targetLayer)
            case Layers(current, target) => (current, target)
            case Arrives(_, e) =>
              if (t.reSync || t.lastSSRC != e.packet.ssrc) && SentBy(Simulcast, t, v).Some?
              then (t.targetLayer, 0) else (t.currentLayer, t.targetLayer)
  {
    hide TimeStep, TruncDiv, Wrap16, Wrap32;
  }

  lemma {:induction false} LayersAre(events: seq<Event>, k: nat)
    requires k <= |events|
    ensures var t := At(Simulcast, events, k); (t.currentLayer, t.targetLayer) == Layering(events, k)
  {
    if k > 0 {
      hide Unsynced, At, Sent, Next, SentBy;
      LayersAre(events, k - 1);
      AtNext(Simulcast, events, k - 1);
      SyncIs(Simulcast, events, k - 1);
      StepLayers(At(Simulcast, events, k - 1), events[k - 1]);
    } else {
      assert At(Simulcast, events, 0) == BOUND;
    }
  }

  // ---------------------------------------------------------------- taken up, held back, dropped

  /**
   A plain track sends every packet, but for video since the last binding: there it waits
   for a key frame, and every packet held back asks for one.
   */
  lemma {:induction false} SimpleTakesUp(video: bool, events: seq<Event>, k: nat)
    requires k < |events| && events[k].Arrives?
    ensures var mode, effect := Simple(video), EffectAt(Simple(video), events, k);
            && effect.sent == Sent(mode, events, k) && effect.leftLayer == None
            && (effect.sent.None? <==> video && Unsynced(mode, events, k) && !events[k].e.keyFrame)
            && (effect.pli <==> effect.sent.None?)
  {
    hide Unsynced, Wrap16, Wrap32, Reached;
    SyncIs(Simple(video), events, k);
  }

  /**
   A simulcast track sends every packet of the source last sent.  Of any other source it
   takes up a key frame, and every other packet held back asks for one; but while no other
   layer is wanted it drops packets of other sources without a word.  Taking one up leaves
   exactly the layer in use, if another is wanted.
   */
  lemma {:induction false} SimulcastTakesUp(events: seq<Event>, k: nat)
    requires k < |events| && events[k].Arrives?
    ensures var effect, layers := EffectAt(Simulcast, events, k), Layering(events, k);
            && effect.sent == Sent(Simulcast, events, k)
            && (effect.sent.Some? <==>
                !AtChange(Simulcast, events, k) || (events[k].e.keyFrame && !Strayed(events, k)))
            && (effect.pli <==>
                AtChange(Simulcast, events, k) && !events[k].e.keyFrame && !Strayed(events, k))
            && effect.leftLayer == if effect.sent.Some? && AtChange(Simulcast, events, k) && layers.0 != layers.1
                                   then Some(layers.0) else None
  {
    hide Unsynced, Wrap16, Wrap32, Reached, TimeStep, LastSource, Layering, SimulcastSynced, Counted, Noted;
    SyncIs(Simulcast, events, k);
    LayersAre(events, k);
  }

  // ---------------------------------------------------------------- the last number and timestamp

  /** Arrival times are never zero: zero is read as "nothing sent yet". */
  predicate NonzeroArrivals(events: seq<Event>) {
    forall k :: 0 <= k < |events| && events[k].Arrives? ==> events[k].e.arrival != 0
  }

  predicate AnySent(mode: Mode, events: seq<Event>, k: nat)
    requires k <= |events|
  {
    exists i :: 0 <= i < k && Sent(mode, events, i).Some?
  }

  predicate AnyHead(mode: Mode, events: seq<Event>, k: nat)
    requires k <= |events|
  {
    exists i :: 0 <= i < k && SentHead(mode, events, i)
  }

  /** The packet a new source follows: the last newest one, or on a simulcast track without any the first sent. */
  predicate Followed(mode: Mode, events: seq<Event>, k: nat, i: nat)
    requires k <= |events|
  {
    && i < k && Sent(mode, events, i).Some?
    && if AnyHead(mode, events, k) then events[i].e.head && forall j :: i < j < k ==> !SentHead(mode, events, j)
       else mode == Simulcast && forall j :: 0 <= j < i ==> Sent(mode, events, j).None?
  }

  /** What one event does to the last number and timestamp. */
  lemma {:induction false} StepNotes(mode: Mode, t: Track, v: Event)
    ensures var t', sent := Next(mode, t, v), SentBy(mode, t, v);
            && (sent.Some? && v.e.head ==> t'.lastSN == sent.value.sn && t'.lastTS == sent.value.ts)
            && (sent.Some? && !v.e.head && mode == Simulcast && t.lastTSCalc == 0 && t.snOffset == 0 && t.tsOffset == 0 ==>
                t'.lastSN == sent.value.sn && t'.lastTS == sent.value.ts)
            && (sent.None? || (!v.e.head && (mode == Simulcast ==> t.lastTSCalc != 0 && v.e.arrival != 0)) ==>
                t'.lastSN == t.lastSN && t'.lastTS == t.lastTS)
  {
    hide TimeStep, TruncDiv;
    hide Wrap16, Wrap32;
    if v.Arrives? && mode == Simulcast {
      var u := Counted(SimulcastSynced(Switched(Waited(t, v.e), v.e.packet), v.e), v.e.packet);
      Kept(u, v.e.packet);
    }
  }

  lemma {:induction false} Kept(t: Track, p: RtpPacket)
    ensures t.snOffset == 0 && t.tsOffset == 0 ==> NewSN(t, p) == p.sn && NewTS(t, p) == p.ts
  {
  }

  /** What one event does to the clock and the offsets. */
  lemma {:induction false} StepClock(mode: Mode, t: Track, v: Event)
    ensures var t', sent := Next(mode, t, v), SentBy(mode, t, v);
            && (mode == Simulcast && sent.Some? ==> t'.lastTSCalc == v.e.arrival)
            && (mode == Simulcast && sent.None? && !(v.Arrives? && t.reSync) ==> t'.lastTSCalc == t.lastTSCalc)
            && (mode == Simulcast && sent.None? && t.lastTSCalc == 0 ==> t'.lastTSCalc == 0)
            && (mode == Simulcast && sent.None? ==> t'.lastTSCalc == t.lastTSCalc || (v.Arrives? && t'.lastTSCalc == v.e.arrival))
            && (sent.None? ==> t'.snOffset == t.snOffset && t'.tsOffset == t.tsOffset)
  {
    hide TimeStep, TruncDiv, Wrap16, Wrap32;
  }

  /** Before anything is sent the fields are as bound. */
  lemma {:induction false} NothingSent(mode: Mode, events: seq<Event>, k: nat)
    requires k <= |events| && !AnySent(mode, events, k)
    ensures var t := At(mode, events, k);
            t.snOffset == 0 && t.tsOffset == 0 && t.lastSN == 0 && t.lastTS == 0 && (mode == Simulcast ==> t.lastTSCalc == 0)
  {
    if k > 0 {
      hide At, Sent, Next, SentBy;
      assert Sent(mode, events, k - 1).None?;
      assert !AnySent(mode, events, k - 1);
      NothingSent(mode, events, k - 1);
      AtNext(mode, events, k - 1);
      StepNotes(mode, At(mode, events, k - 1), events[k - 1]);
      StepClock(mode, At(mode, events, k - 1), events[k - 1]);
    } else {
      assert At(mode, events, 0) == BOUND;
    }
  }

  lemma {:induction false} ClockStarted(events: seq<Event>, k: nat)
    requires k <= |events| && NonzeroArrivals(events)
    ensures At(Simulcast, events, k).lastTSCalc != 0 <==> AnySent(Simulcast, events, k)
  {
    hide At, Sent, Next, SentBy;
    if !AnySent(Simulcast, events, k) {
      NothingSent(Simulcast, events, k);
    } else {
      AtNext(Simulcast, events, k - 1);
      StepClock(Simulcast, At(Simulcast, events, k - 1), events[k - 1]);
      if Sent(Simulcast, events, k - 1).None? {
        var i :| 0 <= i < k && Sent(Simulcast, events, i).Some?;
        assert i < k - 1;
        ClockStarted(events, k - 1);
      } else {
        SentArrives(Simulcast, events, k - 1);
      }
    }
  }

  /** The last number and timestamp are those of a packet sent: the one a new source follows. */
  lemma {:induction false} LastIsSent(mode: Mode, events: seq<Event>, k: nat, i: nat)
    requires k <= |events| && NonzeroArrivals(events) && Followed(mode, events, k, i)
    ensures At(mode, events, k).lastTS == Sent(mode, events, i).value.ts
    ensures At(mode, events, k).lastSN == Sent(mode, events, i).value.sn
    decreases k
  {
    hide At, Next, SentBy, Reached, Sent;
    var n := k - 1;
    SentArrives(mode, events, i);
    AtNext(mode, events, n);
    StepNotes(mode, At(mode, events, n), events[n]);
    if mode == Simulcast {
      ClockStarted(events, n);
    }
    if i == n {
      if !events[i].e.head {
        assert !SentHead(mode, events, i);
        assert !AnySent(mode, events, n);
        NothingSent(mode, events, n);
      }
    } else {
      if Sent(mode, events, n).Some? {
        SentArrives(mode, events, n);
      }
      FollowedBefore(mode, events, n, i);
      LastIsSent(mode, events, n, i);
    }
  }

  lemma {:induction false} HeadSeen(mode: Mode, events: seq<Event>, n: nat)
    requires n < |events| && SentHead(mode, events, n)
    ensures AnyHead(mode, events, n + 1)
  {
  }

  lemma {:induction false} FollowedBefore(mode: Mode, events: seq<Event>, n: nat, i: nat)
    requires n < |events| && i < n && Followed(mode, events, n + 1, i)
    ensures Followed(mode, events, n, i) && !SentHead(mode, events, n)
    ensures AnySent(mode, events, n)
  {
    hide Sent;
    if SentHead(mode, events, n) {
      HeadSeen(mode, events, n);
      assert false;
    }
    if AnyHead(mode, events, n + 1) {
      assert SentHead(mode, events, i);
    }
  }

  // ---------------------------------------------------------------- a new source follows

  /** Event i is the last packet sent before event k. */
  predicate LastSent(mode: Mode, events: seq<Event>, k: nat, i: nat)
    requires k <= |events|
  {
    i < k && Sent(mode, events, i).Some? && forall j :: i < j < k ==> Sent(mode, events, j).None?
  }

  /** Unless the track was bound again since, the clock stands at the last packet's arrival. */
  lemma {:induction false} ClockIsLast(events: seq<Event>, k: nat, i: nat)
    requires k <= |events| && LastSent(Simulcast, events, k, i) && !Unsynced(Simulcast, events, k)
    ensures At(Simulcast, events, k).lastTSCalc == events[i].e.arrival
    decreases k
  {
    hide At, Next, SentBy, Reached, Sent, Unsynced;
    var n := k - 1;
    SentArrives(Simulcast, events, i);
    AtNext(Simulcast, events, n);
    SyncIs(Simulcast, events, n);
    UnsyncedNext(Simulcast, events, n);
    StepClock(Simulcast, At(Simulcast, events, n), events[n]);
    if i < n {
      ClockIsLast(events, n, i);
    }
  }

  /** A simulcast packet of another source than the last sent is the first of a new source. */
  lemma {:induction false} NewSourceIs(events: seq<Event>, k: nat)
    requires k < |events| && events[k].Arrives? && NonzeroArrivals(events) && AnySent(Simulcast, events, k)
    ensures NewSource(Simulcast, At(Simulcast, events, k), events[k].e.packet) <==>
            LastSource(Simulcast, events, k) != events[k].e.packet.ssrc
  {
    hide At, Sent;
    SyncIs(Simulcast, events, k);
    ClockStarted(events, k);
  }

  /** The time counted between the last packet sent and the first of a new source. */
  function Pause(events: seq<Event>, k: nat, i: nat): int
    requires i < k < |events| && events[i].Arrives? && events[k].Arrives?
  {
    if Unsynced(Simulcast, events, k) then 0 else events[k].e.arrival - events[i].e.arrival
  }

  /** The step from the last timestamp, in 90ths of a second as the code scales it, and at least one. */
  lemma {:induction false} StepSize(elapsed: int)
    requires 0 <= elapsed < HALF_RANGE
    ensures var step := TimeStep(elapsed);
            && 1 <= step < 0x8000_0000
            && (step > 1 ==> step * 1_000_000_000 <= 90 * elapsed)
            && 90 * elapsed < (step + 1) * 1_000_000_000 + 90_000_000
  {
  }

  /**
   On a simulcast track under a clock that never goes back, the first packet of another
   source has the number after that of the packet it follows, and a later timestamp: by
   at least one, and otherwise by the time since the last packet sent, counted as none
   after a new binding.
   */
  lemma {:induction false} SourceFollows(events: seq<Event>, k: nat, last: nat, i: nat)
    requires ClockForward(events) && k < |events| && Sent(Simulcast, events, k).Some? && events[k].Arrives?
    requires LastSent(Simulcast, events, k, last) && Followed(Simulcast, events, k, i) && events[last].Arrives?
    requires events[last].e.packet.ssrc != events[k].e.packet.ssrc
    ensures var a, b := Sent(Simulcast, events, i).value, Sent(Simulcast, events, k).value;
            var step := Wrap32(b.ts - a.ts);
            && b.sn == Wrap16(a.sn + 1) && Later(a.ts, b.ts)
            && (step > 1 ==> step * 1_000_000_000 <= 90 * Pause(events, k, last))
            && 90 * Pause(events, k, last) < (step + 1) * 1_000_000_000 + 90_000_000
  {
    hide Next, Reached, Unsynced, Followed, WriteSimulcast, Wrap16, TimeStep, Later, ClockForward, LastSource;
    var t := At(Simulcast, events, k);
    assert Sent(Simulcast, events, k) == WriteSimulcast(t, events[k].e, 0, 0).1.sent;
    PauseRange(events, k, last);
    LastSourceIs(events, k, last);
    SyncIs(Simulcast, events, k);
    SomeSent(events, k, last);
    ClockStarted(events, k);
    LastIsSent(Simulcast, events, k, i);
    if !Unsynced(Simulcast, events, k) {
      ClockIsLast(events, k, last);
    }
    SwitchContinues(t, events[k].e);
    StepSize(Pause(events, k, last));
    StepBack(t.lastTS, TimeStep(Pause(events, k, last)));
  }

  lemma {:induction false} StepBack(ts: uint32, step: uint32)
    ensures Wrap32(Wrap32(ts + step) - ts) == step
  {
  }

  lemma {:induction false} SomeSent(events: seq<Event>, k: nat, i: nat)
    requires k <= |events| && LastSent(Simulcast, events, k, i)
    ensures AnySent(Simulcast, events, k)
  {
  }

  lemma {:induction false} PauseRange(events: seq<Event>, k: nat, i: nat)
    requires ClockForward(events) && k < |events| && LastSent(Simulcast, events, k, i)
    requires events[i].Arrives? && events[k].Arrives?
    ensures NonzeroArrivals(events) && 0 <= Pause(events, k, i) < HALF_RANGE
  {
  }

  lemma {:induction false} LastSourceIs(events: seq<Event>, k: nat, i: nat)
    requires k <= |events| && LastSent(Simulcast, events, k, i) && events[i].Arrives?
    ensures LastSource(Simulcast, events, k) == events[i].e.packet.ssrc
    decreases k
  {
    hide Sent;
    if i < k - 1 {
      assert Sent(Simulcast, events, k - 1).None?;
      LastSourceIs(events, k - 1, i);
    }
  }

  /** There always is a packet to follow once a simulcast track has sent one. */
  lemma {:induction false} SomeFollowed(events: seq<Event>, k: nat) returns (last: nat, i: nat)
    requires k <= |events| && AnySent(Simulcast, events, k)
    ensures LastSent(Simulcast, events, k, last) && Followed(Simulcast, events, k, i)
  {
    hide Sent;
    last := LastWhere(events, k, false);
    if AnyHead(Simulcast, events, k) {
      i := LastWhere(events, k, true);
    } else {
      i := FirstSent(events, k);
    }
  }

  lemma {:induction false} LastWhere(events: seq<Event>, k: nat, head: bool) returns (i: nat)
    requires k <= |events| && AnySent(Simulcast, events, k) && (head ==> AnyHead(Simulcast, events, k))
    ensures i < k && Sent(Simulcast, events, i).Some? && (head ==> SentHead(Simulcast, events, i))
    ensures forall j :: i < j < k ==> Sent(Simulcast, events, j).None? || (head && !SentHead(Simulcast, events, j))
  {
    hide Sent;
    if Sent(Simulcast, events, k - 1).Some? && (head ==> SentHead(Simulcast, events, k - 1)) {
      i := k - 1;
    } else {
      i := LastWhere(events, k - 1, head);
    }
  }

  lemma {:induction false} FirstSent(events: seq<Event>, k: nat) returns (i: nat)
    requires k <= |events| && AnySent(Simulcast, events, k)
    ensures i < k && Sent(Simulcast, events, i).Some? && forall j :: 0 <= j < i ==> Sent(Simulcast, events, j).None?
  {
    hide Sent;
    if AnySent(Simulcast, events, k - 1) {
      i := FirstSent(events, k - 1);
    } else {
      i := k - 1;
    }
  }

  /**
   On a plain track the first packet after a new binding has the number and the timestamp
   after those of the last newest packet sent, when that number is not zero.
   */
  lemma {:induction false} BindingFollows(video: bool, events: seq<Event>, k: nat, i: nat)
    requires NonzeroArrivals(events) && k < |events| && Sent(Simple(video), events, k).Some? && events[k].Arrives?
    requires Followed(Simple(video), events, k, i) && Unsynced(Simple(video), events, k)
    ensures var a, b := Sent(Simple(video), events, i).value, Sent(Simple(video), events, k).value;
            a.sn != 0 ==> b.sn == Wrap16(a.sn + 1) && b.ts == Wrap32(a.ts + 1)
  {
    hide At, Next, Reached, Unsynced, Followed, Wrap16, Wrap32;
    SyncIs(Simple(video), events, k);
    LastIsSent(Simple(video), events, k, i);
    SimpleTakesUp(video, events, k);
    SimpleContinues(video, At(Simple(video), events, k), events[k].e);
  }

  // ---------------------------------------------------------------- counts

  function SentCount(mode: Mode, events: seq<Event>, k: nat): nat
    requires k <= |events|
  {
    if k == 0 then 0 else SentCount(mode, events, k - 1) + if Sent(mode, events, k - 1).Some? then 1 else 0
  }

  function SentOctets(mode: Mode, events: seq<Event>, k: nat): nat
    requires k <= |events|
  {
    if k == 0 then 0
    else SentOctets(mode, events, k - 1)
         + if Sent(mode, events, k - 1).Some? then |Sent(mode, events, k - 1).value.payload| else 0
  }

  lemma {:induction false} StepCounts(mode: Mode, t: Track, v: Event)
    ensures var t', sent := Next(mode, t, v), SentBy(mode, t, v);
            && t'.packetCount == (if sent.Some? then Wrap32(t.packetCount + 1) else t.packetCount)
            && t'.octetCount == if sent.Some? then Wrap32(t.octetCount + |sent.value.payload|) else t.octetCount
  {
    hide TimeStep, TruncDiv, Wrap16, Wrap32;
  }

  lemma {:induction false} WrapAdds(a: nat, b: nat)
    ensures Wrap32(Wrap32(a) + b) == Wrap32(a + b)
  {
  }

  /** One more packet is one more, and as many octets as it carries. */
  lemma {:induction false} CountsStep(mode: Mode, events: seq<Event>, k: nat)
    requires k < |events|
    ensures var t, t', sent := At(mode, events, k), At(mode, events, k + 1), Sent(mode, events, k);
            && (sent.None? ==> t'.packetCount == t.packetCount && t'.octetCount == t.octetCount)
            && (sent.Some? ==> t'.packetCount == Wrap32(t.packetCount + 1)
                               && t'.octetCount == Wrap32(t.octetCount + |sent.value.payload|))
  {
    hide At, Next, SentBy, Wrap32, Sent;
    AtNext(mode, events, k);
    StepCounts(mode, At(mode, events, k), events[k]);
  }

  /** The counters are the packets sent and the octets in them, modulo 2^32. */
  lemma {:induction false} CountsAreSent(mode: Mode, events: seq<Event>, k: nat)
    requires k <= |events|
    ensures At(mode, events, k).packetCount == Wrap32(SentCount(mode, events, k))
    ensures At(mode, events, k).octetCount == Wrap32(SentOctets(mode, events, k))
  {
    hide At, Sent, Wrap32;
    if k == 0 {
      NothingCounted(mode, events);
    } else {
      CountsAreSent(mode, events, k - 1);
      CountsStep(mode, events, k - 1);
      var sent := Sent(mode, events, k - 1);
      if sent.Some? {
        WrapAdds(SentCount(mode, events, k - 1), 1);
        WrapAdds(SentOctets(mode, events, k - 1), |sent.value.payload|);
      }
    }
  }

  lemma {:induction false} NothingCounted(mode: Mode, events: seq<Event>)
    ensures At(mode, events, 0).packetCount == At(mode, events, 0).octetCount == Wrap32(0)
  {
  }
}
