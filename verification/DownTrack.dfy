/**
 One subscriber's copy of a publisher's track: outgoing numbers and timestamps are made
 continuous when the source changes, and every packet sent is recorded for retransmission.
 */
module DownTrack {
  import opened Words
  import opened NackPairs
  import S = Sequencer

  /** The fields of an RTP packet that forwarding reads or rewrites. */
  datatype RtpPacket = RtpPacket(payloadType: uint8, sn: uint16, ts: uint32, ssrc: uint32, payload: seq<uint8>)

  /** A packet as the publisher's buffer hands it over; head says it is the newest so far. */
  datatype ExtPacket = ExtPacket(head: bool, arrival: int, keyFrame: bool, packet: RtpPacket)

  /** Plain forwarding of audio or video, or a choice among simulcast layers. */
  datatype Mode = Simple(video: bool) | Simulcast

  /** What the write functions read and change. */
  datatype Track = Track(
    reSync: bool,
    snOffset: uint16,
    tsOffset: uint32,
    lastSSRC: uint32,
    lastSN: uint16,
    lastTS: uint32,
    lastTSCalc: int,
    currentLayer: uint16,
    targetLayer: uint16,
    octetCount: uint32,
    packetCount: uint32)

  /** A track that has just been bound. */
  const BOUND := Track(true, 0, 0, 0, 0, 0, 0, 0, 0, 0, 0)

  /** What a write does to the outside: a packet sent, a key frame asked for, a layer left. */
  datatype Effect = Effect(sent: Option<RtpPacket>, pli: bool, leftLayer: Option<uint16>)

  const NOTHING := Effect(None, false, None)

  function NewSN(t: Track, p: RtpPacket): uint16 { Wrap16(p.sn - t.snOffset) }
  function NewTS(t: Track, p: RtpPacket): uint32 { Wrap32(p.ts - t.tsOffset) }

  function Counted(t: Track, p: RtpPacket): Track {
    t.(octetCount := Wrap32(t.octetCount + |p.payload|), packetCount := Wrap32(t.packetCount + 1))
  }

  /** Remembering the newest number and timestamp sent. */
  function Noted(t: Track, e: ExtPacket): Track {
    if e.head then t.(lastSN := NewSN(t, e.packet), lastTS := NewTS(t, e.packet)) else t
  }

  function Rewritten(t: Track, p: RtpPacket, ssrc: uint32, payloadType: uint8): RtpPacket {
    RtpPacket(payloadType, NewSN(t, p), NewTS(t, p), ssrc, p.payload)
  }

  // ---------------------------------------------------------------- simple mode

  /** A video source is taken up again only at a key frame. */
  predicate SimpleHeld(t: Track, video: bool, e: ExtPacket) { t.reSync && video && !e.keyFrame }

  /** Taking up a source: a last number of zero is read as nothing sent yet. */
  function SimpleSynced(t: Track, p: RtpPacket): Track {
    if !t.reSync then t
    else
      var u := if t.lastSN != 0
               then t.(snOffset := Wrap16(p.sn - t.lastSN - 1), tsOffset := Wrap32(p.ts - t.lastTS - 1))
               else t;
      u.(lastSSRC := p.ssrc, reSync := false)
  }

  function WriteSimple(t: Track, video: bool, e: ExtPacket, ssrc: uint32, payloadType: uint8): (Track, Effect) {
    if SimpleHeld(t, video, e) then (t, NOTHING.(pli := true))
    else
      var u := Counted(SimpleSynced(t, e.packet), e.packet);
      (Noted(u, e), NOTHING.(sent := Some(Rewritten(u, e.packet, ssrc, payloadType))))
  }

  // ---------------------------------------------------------------- simulcast mode

  /** Nanoseconds to a timestamp step, at least one, as the code scales them. */
  function TimeStep(elapsed: int): uint32 {
    var td := Wrap32(TruncDiv(TruncDiv(elapsed, 1_000_000) * 90, 1000));
    if td == 0 then 1 else td
  }

  /** A packet from another source while no change of layer is wanted. */
  predicate Stray(t: Track, p: RtpPacket) {
    t.lastSSRC != p.ssrc && !t.reSync && t.currentLayer == t.targetLayer && t.lastSSRC != 0
  }

  predicate AtSwitch(t: Track, p: RtpPacket) { t.lastSSRC != p.ssrc || t.reSync }

  /** Waiting for a key frame after a rebind keeps the clock of the last packet current. */
  function Waited(t: Track, e: ExtPacket): Track {
    if AtSwitch(t, e.packet) && t.reSync && t.lastTSCalc != 0 then t.(lastTSCalc := e.arrival) else t
  }

  /** A switch moves to the wanted layer and, as written, clears the wanted half. */
  function Switched(t: Track, p: RtpPacket): Track {
    if AtSwitch(t, p) then t.(currentLayer := t.targetLayer, targetLayer := 0, reSync := false) else t
  }

  function SimulcastSynced(t: Track, e: ExtPacket): Track {
    var p := e.packet;
    if t.lastTSCalc != 0 && t.lastSSRC != p.ssrc then
      t.(tsOffset := Wrap32(p.ts - Wrap32(t.lastTS + TimeStep(e.arrival - t.lastTSCalc))),
         snOffset := Wrap16(p.sn - t.lastSN - 1))
    else if t.lastTSCalc == 0 then t.(lastTS := p.ts, lastSN := p.sn)
    else t
  }

  function WriteSimulcast(t: Track, e: ExtPacket, ssrc: uint32, payloadType: uint8): (Track, Effect) {
    var p := e.packet;
    if Stray(t, p) then (t, NOTHING)
    else
      var w := Waited(t, e);
      if AtSwitch(t, p) && !e.keyFrame then (w, NOTHING.(pli := true))
      else
        var u := Counted(SimulcastSynced(Switched(w, p), e), p);
        (Noted(u, e).(lastTSCalc := e.arrival, lastSSRC := p.ssrc),
         Effect(Some(Rewritten(u, p, ssrc, payloadType)), false,
                if AtSwitch(t, p) && t.currentLayer != t.targetLayer then Some(t.currentLayer) else None))
  }

  function Write(mode: Mode, t: Track, e: ExtPacket, ssrc: uint32, payloadType: uint8): (Track, Effect) {
    match mode
    case Simple(video) => WriteSimple(t, video, e, ssrc, payloadType)
    case Simulcast => WriteSimulcast(t, e, ssrc, payloadType)
  }

  /** Only video is recorded for retransmission. */
  predicate HasRecord(mode: Mode) { mode != Simple(false) }

  /** The layer a packet is recorded under. */
  function LayerOf(mode: Mode, t: Track): uint8 { if mode == Simulcast then Wrap8(t.currentLayer) else 0 }

  /** The record a write leaves for retransmission. */
  function Recorded(mode: Mode, s: S.State, t: Track, e: ExtPacket, sent: RtpPacket): S.State
    requires S.WellFormed(s)
  {
    S.Push(s, e.packet.sn, sent.sn, sent.ts, LayerOf(mode, t), e.head)
  }

  /** The records found for a negative acknowledgement, pair after pair, each at its own time. */
  function Answered(s: S.State, nacks: seq<NackPair>, times: seq<uint32>): (r: (S.State, seq<S.PacketMeta>))
    requires S.WellFormed(s) && |times| == |nacks|
    ensures S.WellFormed(r.0)
  {
    if nacks == [] then (s, [])
    else
      var n := |nacks| - 1;
      var (t, before) := Answered(s, nacks[..n], times[..n]);
      var (u, found) := S.Ask(t, PacketList(nacks[n]), times[n]);
      (u, before + found)
  }

  // ---------------------------------------------------------------- the object

  class Forwarder {
    const mode: Mode
    const ssrc: uint32
    const payloadType: uint8
    var sequencer: S.Recorder?
    var reSync: bool
    var snOffset: uint16
    var tsOffset: uint32
    var lastSSRC: uint32
    var lastSN: uint16
    var lastTS: uint32
    var lastTSCalc: int
    var currentLayer: uint16
    var targetLayer: uint16
    var octetCount: uint32
    var packetCount: uint32

    ghost function Value(): Track
      reads this
    {
      Track(reSync, snOffset, tsOffset, lastSSRC, lastSN, lastTS, lastTSCalc,
            currentLayer, targetLayer, octetCount, packetCount)
    }

    ghost function Frame(): set<object>
      reads this
    {
      if sequencer == null then {} else {sequencer, sequencer.seqs}
    }

    ghost predicate Valid()
      reads this, Frame()
    {
      sequencer != null ==> sequencer.Valid()
    }

    /** Binding: a video track gets an empty record, and the next packet is a new source. */
    constructor Bind(mode: Mode, ssrc: uint32, payloadType: uint8)
      ensures Valid() && fresh(Frame()) && Value() == BOUND
      ensures this.mode == mode && this.ssrc == ssrc && this.payloadType == payloadType
      ensures sequencer != null <==> HasRecord(mode)
      ensures sequencer != null ==> sequencer.Value() == S.NewState()
    {
      this.mode, this.ssrc, this.payloadType := mode, ssrc, payloadType;
      reSync, snOffset, tsOffset, lastSSRC, lastSN, lastTS, lastTSCalc := true, 0, 0, 0, 0, 0, 0;
      currentLayer, targetLayer, octetCount, packetCount := 0, 0, 0, 0;
      if HasRecord(mode) {
        sequencer := new S.Recorder();
      } else {
        sequencer := null;
      }
    }

    /** Taking up a source, or asking for a key frame to take it up at. */
    method SyncSimple(e: ExtPacket) returns (held: bool)
      requires mode.Simple?
      modifies this`reSync, this`snOffset, this`tsOffset, this`lastSSRC
      ensures held == SimpleHeld(old(Value()), mode.video, e)
      ensures Value() == if held then old(Value()) else SimpleSynced(old(Value()), e.packet)
    {
      var p := e.packet;
      held := false;
      if reSync {
        if mode.video && !e.keyFrame {
          return true;
        }
        if lastSN != 0 {
          snOffset := Wrap16(p.sn - lastSN - 1);
          tsOffset := Wrap32(p.ts - lastTS - 1);
        }
        lastSSRC, reSync := p.ssrc, false;
      }
    }

    method Count(p: RtpPacket)
      modifies this`octetCount, this`packetCount
      ensures Value() == Counted(old(Value()), p)
    {
      octetCount := Wrap32(octetCount + |p.payload|);
      packetCount := Wrap32(packetCount + 1);
    }

    method Note(e: ExtPacket, newSN: uint16, newTS: uint32)
      requires newSN == NewSN(Value(), e.packet) && newTS == NewTS(Value(), e.packet)
      modifies this`lastSN, this`lastTS
      ensures Value() == Noted(old(Value()), e)
    {
      if e.head {
        lastSN, lastTS := newSN, newTS;
      }
    }

    method Record(e: ExtPacket, newSN: uint16, newTS: uint32, layer: uint8)
      requires Valid()
      modifies Frame()
      ensures Valid()
      ensures sequencer != null ==>
                sequencer.Value() == S.Push(old(sequencer.Value()), e.packet.sn, newSN, newTS, layer, e.head)
    {
      if sequencer != null {
        var _ := sequencer.PushPacket(e.packet.sn, newSN, newTS, layer, e.head);
      }
    }

    method WriteSimpleRTP(e: ExtPacket) returns (effect: Effect)
      requires Valid() && mode.Simple?
      modifies this, Frame()
      ensures Valid() && sequencer == old(sequencer)
      ensures (Value(), effect) == WriteSimple(old(Value()), mode.video, e, ssrc, payloadType)
      ensures sequencer != null && effect.sent.None? ==> sequencer.Value() == old(sequencer.Value())
      ensures sequencer != null && effect.sent.Some? ==>
                sequencer.Value() == Recorded(mode, old(sequencer.Value()), Value(), e, effect.sent.value)
    {
      hide S.Push, Counted, Noted, SimpleSynced, SimpleHeld;
      var p := e.packet;
      var held := SyncSimple(e);
      if held {
        return NOTHING.(pli := true);
      }
      Count(p);
      var newSN, newTS := Wrap16(p.sn - snOffset), Wrap32(p.ts - tsOffset);
      Record(e, newSN, newTS, 0);
      Note(e, newSN, newTS);
      effect := NOTHING.(sent := Some(RtpPacket(payloadType, newSN, newTS, ssrc, p.payload)));
    }

    /** Leaving strays alone, waiting for a key frame, and moving to the wanted layer. */
    method SwitchLayer(e: ExtPacket) returns (effect: Option<Effect>, left: Option<uint16>)
      modifies this`lastTSCalc, this`currentLayer, this`targetLayer, this`reSync
      ensures var t := old(Value());
              && (Stray(t, e.packet) ==> effect == Some(NOTHING) && Value() == t)
              && (!Stray(t, e.packet) && AtSwitch(t, e.packet) && !e.keyFrame ==>
                  effect == Some(NOTHING.(pli := true)) && Value() == Waited(t, e))
              && (!Stray(t, e.packet) && (AtSwitch(t, e.packet) ==> e.keyFrame) ==>
                  && effect == None && Value() == Switched(Waited(t, e), e.packet)
                  && left == if AtSwitch(t, e.packet) && t.currentLayer != t.targetLayer then Some(t.currentLayer) else None)
    {
      effect, left := None, None;
      if lastSSRC != e.packet.ssrc || reSync {
        if currentLayer == targetLayer && lastSSRC != 0 && !reSync {
          return Some(NOTHING), None;
        }
        if reSync && lastTSCalc != 0 {
          lastTSCalc := e.arrival;
        }
        if !e.keyFrame {
          return Some(NOTHING.(pli := true)), None;
        }
        if currentLayer != targetLayer {
          left := Some(currentLayer);
        }
        currentLayer, targetLayer, reSync := targetLayer, 0, false;
      }
    }

    /** The offsets of a new source, or the start of the first one. */
    method SyncSimulcast(e: ExtPacket)
      modifies this`tsOffset, this`snOffset, this`lastTS, this`lastSN
      ensures Value() == SimulcastSynced(old(Value()), e)
    {
      var p := e.packet;
      if lastTSCalc != 0 && lastSSRC != p.ssrc {
        var tDiff := TruncDiv(e.arrival - lastTSCalc, 1_000_000);
        var td := Wrap32(TruncDiv(tDiff * 90, 1000));
        if td == 0 {
          td := 1;
        }
        tsOffset := Wrap32(p.ts - Wrap32(lastTS + td));
        snOffset := Wrap16(p.sn - lastSN - 1);
      } else if lastTSCalc == 0 {
        lastTS, lastSN := p.ts, p.sn;
      }
    }

    method WriteSimulcastRTP(e: ExtPacket) returns (effect: Effect)
      requires Valid() && mode.Simulcast?
      modifies this, Frame()
      ensures Valid() && sequencer == old(sequencer)
      ensures (Value(), effect) == WriteSimulcast(old(Value()), e, ssrc, payloadType)
      ensures sequencer != null && effect.sent.None? ==> sequencer.Value() == old(sequencer.Value())
      ensures sequencer != null && effect.sent.Some? ==>
                sequencer.Value() == Recorded(mode, old(sequencer.Value()), Value(), e, effect.sent.value)
    {
      hide S.Push, Counted, Noted, SimulcastSynced, Stray, AtSwitch, Waited, Switched;
      var p := e.packet;
      var stop, left := SwitchLayer(e);
      if stop.Some? {
        return stop.value;
      }
      SyncSimulcast(e);
      var newSN, newTS := Wrap16(p.sn - snOffset), Wrap32(p.ts - tsOffset);
      Record(e, newSN, newTS, Wrap8(currentLayer));
      Count(p);
      Note(e, newSN, newTS);
      lastTSCalc, lastSSRC := e.arrival, p.ssrc;
      effect := Effect(Some(RtpPacket(payloadType, newSN, newTS, ssrc, p.payload)), false, left);
    }
  
    /** A negative acknowledgement collects what the record still holds for retransmission. */
    method HandleNack(nacks: seq<NackPair>, times: seq<uint32>) returns (nackedPackets: seq<S.PacketMeta>)
      requires Valid() && |times| == |nacks|
      modifies Frame()
      ensures Valid()
      ensures sequencer == null ==> nackedPackets == []
      ensures sequencer != null ==>
                (sequencer.Value(), nackedPackets) == Answered(old(sequencer.Value()), nacks, times)
    {
      hide PacketList, S.Ask;
      nackedPackets := [];
      if sequencer != null {
        for k := 0 to |nacks|
          invariant Valid()
          invariant (sequencer.Value(), nackedPackets) == Answered(old(sequencer.Value()), nacks[..k], times[..k])
        {
          assert nacks[..k + 1][..k] == nacks[..k] && times[..k + 1][..k] == times[..k];
          var found := sequencer.GetSeqNoPairs(PacketList(nacks[k]), times[k]);
          nackedPackets := nackedPackets + found;
        }
        assert nacks[..|nacks|] == nacks && times[..|times|] == times;
      }
    }
  }
}
