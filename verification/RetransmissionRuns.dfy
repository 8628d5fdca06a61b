/**
 Retransmission fidelity over whole runs: what is sent again for a requested number is
 exactly the packet that was first forwarded under it.
 */
module RetransmissionRuns {
  import opened Words
  import opened DownTrack
  import opened Retransmission
  import opened NackPairs
  import PacketRing
  import S = Sequencer
  import Q = SequencerRuns

  /** The slots of each layer's cache, the header parser, and the outgoing identity. */
  datatype Setup = Setup(mode: Mode, slots: seq<nat>, parse: Parse, ssrc: uint32, payloadType: uint8)

  predicate SetupOk(c: Setup) {
    forall l :: 0 <= l < |c.slots| ==> 1 <= c.slots[l] <= 65534
  }

  /** The parser reads a packet's number where the cache does. */
  ghost predicate HeaderOk(parse: Parse) {
    forall bytes :: PacketRing.Cacheable(bytes) && parse(bytes).Some? ==>
      parse(bytes).value.sn == PacketRing.OwnNumber(bytes)
  }

  /**
   A published packet enters its layer's cache and, when this track is attached to the
   layer, is forwarded; a number is asked for; the track is bound again; layers change.
   */
  datatype Event =
    | Published(layer: nat, add: PacketRing.Add, arrival: int, keyFrame: bool, attached: bool)
    | Nacked(target: uint16, now: uint32)
    | Rebound
    | Relayered(current: uint16, target: uint16)

  datatype World = World(layers: seq<Ring>, track: Track, record: S.State)

  predicate WorldOk(w: World) {
    && S.WellFormed(w.record)
    && forall l :: 0 <= l < |w.layers| ==> w.layers[l].step < |w.layers[l].slots|
  }

  function Begin(c: Setup): (w: World)
    requires SetupOk(c)
    ensures WorldOk(w) && |w.layers| == |c.slots|
  {
    World(Rings(c.slots), BOUND, S.NewState())
  }

  function Rings(slots: seq<nat>): (r: seq<Ring>)
    ensures |r| == |slots| && forall l :: 0 <= l < |r| ==> r[l] == PacketRing.EmptyRing(slots[l])
  {
    if slots == [] then [] else [PacketRing.EmptyRing(slots[0])] + Rings(slots[1..])
  }

  /** Whether the cache keeps the packet, which is then parsed from there. */
  predicate Kept(r: Ring, a: PacketRing.Add)
    requires r.step < |r.slots|
  {
    a.latest || PacketRing.LateSlot(PacketRing.Started(r, Wrap16(a.number)), Wrap16(a.number)).Some?
  }

  /** The packet handed to the down track, if there is one. */
  function Offered(c: Setup, w: World, v: Event): Option<ExtPacket>
    requires WorldOk(w)
  {
    if v.Published? && v.layer < |w.layers| && v.attached && Kept(w.layers[v.layer], v.add) && c.parse(v.add.packet).Some?
    then Some(ExtPacket(v.add.latest, v.arrival, v.keyFrame, c.parse(v.add.packet).value))
    else None
  }

  /** The packet sent out, if there is one. */
  function Forwarded(c: Setup, w: World, v: Event): Option<RtpPacket>
    requires WorldOk(w)
  {
    match Offered(c, w, v)
    case None => None
    case Some(e) => Write(c.mode, w.track, e, c.ssrc, c.payloadType).1.sent
  }

  function Cached(layers: seq<Ring>, v: Event): (r: seq<Ring>)
    requires forall l :: 0 <= l < |layers| ==> layers[l].step < |layers[l].slots|
    ensures |r| == |layers| && forall l :: 0 <= l < |r| ==> r[l].step < |r[l].slots|
  {
    if v.Published? && v.layer < |layers|
    then layers[v.layer := PacketRing.AddPacket(layers[v.layer], v.add.packet, Wrap16(v.add.number), v.add.latest)]
    else layers
  }

  function Tracked(c: Setup, w: World, v: Event): Track
    requires WorldOk(w)
  {
    match v
    case Published(_, _, _, _, _) =>
      (match Offered(c, w, v)
       case None => w.track
       case Some(e) => Write(c.mode, w.track, e, c.ssrc, c.payloadType).0)
    case Nacked(_, _) => w.track
    case Rebound => w.track.(reSync := true)
    case Relayered(current, target) => w.track.(currentLayer := current, targetLayer := target)
  }

  /** What the record of sent packets sees of an event, where there is a record. */
  function Seen(c: Setup, w: World, v: Event): Option<Q.Event>
    requires WorldOk(w)
  {
    if !HasRecord(c.mode) then None
    else if v.Nacked? then Some(Q.Asked(v.target, v.now))
    else
      match Forwarded(c, w, v)
      case None => None
      case Some(p) =>
        Some(Q.Sent(Offered(c, w, v).value.packet.sn, p.sn, p.ts, LayerOf(c.mode, Tracked(c, w, v)), v.add.latest))
  }

  /** The record after an event: a new binding starts it afresh. */
  function RecordAfter(c: Setup, w: World, v: Event): (s: S.State)
    requires WorldOk(w)
    ensures S.WellFormed(s)
  {
    if !HasRecord(c.mode) then w.record
    else if v.Rebound? then S.NewState()
    else if v.Nacked? then S.AskOne(w.record, v.target, v.now).0
    else
      match Forwarded(c, w, v)
      case None => w.record
      case Some(p) => Recorded(c.mode, w.record, Tracked(c, w, v), Offered(c, w, v).value, p)
  }

  lemma {:induction false} SeenIsStep(c: Setup, w: World, v: Event)
    requires WorldOk(w) && !(HasRecord(c.mode) && v.Rebound?)
    ensures RecordAfter(c, w, v) == if Seen(c, w, v).None? then w.record else Q.Step(w.record, Seen(c, w, v).value).0
  {
    hide Write, Kept, S.Push, S.AskOne;
  }

  function Next(c: Setup, w: World, v: Event): (w': World)
    requires WorldOk(w)
    ensures WorldOk(w') && |w'.layers| == |w.layers|
  {
    World(Cached(w.layers, v), Tracked(c, w, v), RecordAfter(c, w, v))
  }

  function Run(c: Setup, events: seq<Event>): (w: World)
    requires SetupOk(c)
    ensures WorldOk(w) && |w.layers| == |c.slots|
  {
    if events == [] then Begin(c) else Next(c, Run(c, events[..|events| - 1]), events[|events| - 1])
  }

  // ---------------------------------------------------------------- requests

  function NackEvents(nacks: seq<NackPair>, times: seq<uint32>): seq<Q.Event>
    requires |times| == |nacks|
  {
    if nacks == [] then []
    else
      var n := |nacks| - 1;
      NackEvents(nacks[..n], times[..n]) + Q.AskedInTurn(PacketList(nacks[n]), times[n])
  }

  /** A negative acknowledgement asks for every number it lists, one after the other. */
  lemma {:induction false} NackIsRun(s: S.State, nacks: seq<NackPair>, times: seq<uint32>)
    requires S.WellFormed(s) && |times| == |nacks|
    ensures Answered(s, nacks, times) == Q.Run(s, NackEvents(nacks, times))
  {
    hide S.Ask, Q.Run, PacketList, Q.AskedInTurn;
    var n := |nacks| - 1;
    if n < 0 {
      EmptyRun(s);
    } else {
      NackIsRun(s, nacks[..n], times[..n]);
      var t := Answered(s, nacks[..n], times[..n]).0;
      Q.RequestIsRun(t, PacketList(nacks[n]), times[n]);
      Q.RunOn(s, NackEvents(nacks[..n], times[..n]), Q.AskedInTurn(PacketList(nacks[n]), times[n]));
    }
  }

  lemma {:induction false} EmptyRun(s: S.State)
    requires S.WellFormed(s)
    ensures Q.Run(s, []) == (s, [])
  {
  }

  // ---------------------------------------------------------------- the caches

  /** What was published on one layer. */
  function Adds(events: seq<Event>, l: nat): seq<PacketRing.Add> {
    if events == [] then []
    else
      var v := events[|events| - 1];
      if v.Published? && v.layer == l then Adds(events[..|events| - 1], l) + [v.add]
      else Adds(events[..|events| - 1], l)
  }

  lemma {:induction false} OneMore(slots: nat, first: nat, front: seq<PacketRing.Add>, a: PacketRing.Add)
    requires slots > 0
    ensures PacketRing.Followed(slots, first, front + [a]) == PacketRing.Follow(PacketRing.Followed(slots, first, front), a)
    ensures PacketRing.AddAll(PacketRing.EmptyRing(slots), front + [a]) ==
            PacketRing.AddPacket(PacketRing.AddAll(PacketRing.EmptyRing(slots), front), a.packet, Wrap16(a.number), a.latest)
    ensures PacketRing.ProperRun(slots, first, front + [a]) ==>
              PacketRing.ProperRun(slots, first, front) && PacketRing.Proper(PacketRing.Followed(slots, first, front), a)
  {
    hide PacketRing.Follow, PacketRing.AddPacket, PacketRing.Proper;
    assert (front + [a])[..|front + [a]| - 1] == front;
  }

  lemma {:induction false} CachedAt(layers: seq<Ring>, v: Event, l: nat)
    requires l < |layers| && forall i :: 0 <= i < |layers| ==> layers[i].step < |layers[i].slots|
    ensures Cached(layers, v)[l] ==
            if v.Published? && v.layer == l
            then PacketRing.AddPacket(layers[l], v.add.packet, Wrap16(v.add.number), v.add.latest)
            else layers[l]
  {
    hide PacketRing.AddPacket;
  }

  lemma {:induction false} LayerIsRing(c: Setup, events: seq<Event>, l: nat)
    requires SetupOk(c) && l < |c.slots|
    ensures Run(c, events).layers[l] == PacketRing.AddAll(PacketRing.EmptyRing(c.slots[l]), Adds(events, l))
  {
    if events == [] {
    } else {
      hide PacketRing.AddPacket, Tracked, RecordAfter, PacketRing.AddAll, PacketRing.EmptyRing, Begin, Cached,
           PacketRing.Followed, PacketRing.ProperRun, PacketRing.Follow, PacketRing.Proper;
      var front, v := events[..|events| - 1], events[|events| - 1];
      LayerIsRing(c, front, l);
      CachedAt(Run(c, front).layers, v, l);
      if v.Published? {
        OneMore(c.slots[l], 0, Adds(front, l), v.add);
      }
    }
  }

  predicate ProperLayer(c: Setup, events: seq<Event>, l: nat)
    requires SetupOk(c) && l < |c.slots|
  {
    var adds := Adds(events, l);
    adds != [] ==> PacketRing.ProperRun(c.slots[l], adds[0].number, adds)
  }

  /** The map from true numbers to bytes that the layer's cache stands for. */
  function CacheMap(c: Setup, events: seq<Event>, l: nat): PacketRing.Model
    requires SetupOk(c) && l < |c.slots| && Adds(events, l) != []
  {
    PacketRing.Followed(c.slots[l], Adds(events, l)[0].number, Adds(events, l))
  }

  /** Event k's packet is among the last numbers of its cache, and none came under its number since. */
  predicate StillCached(c: Setup, events: seq<Event>, k: nat)
    requires SetupOk(c) && k < |events|
  {
    var v := events[k];
    && v.Published? && v.layer < |c.slots| && Adds(events, v.layer) != []
    && CacheMap(c, events, v.layer).head - c.slots[v.layer] < v.add.number
    && forall j :: k < j < |events| && events[j].Published? && events[j].layer == v.layer ==>
         events[j].add.number != v.add.number
  }

  lemma {:induction false} AddedIsIn(events: seq<Event>, k: nat)
    requires k < |events| && events[k].Published?
    ensures Adds(events, events[k].layer) != []
    ensures Adds(events[..k + 1], events[k].layer) != []
    ensures Adds(events, events[k].layer)[0] == Adds(events[..k + 1], events[k].layer)[0]
    decreases |events|
  {
    if k < |events| - 1 {
      AddedIsIn(events[..|events| - 1], k);
      assert events[..|events| - 1][..k + 1] == events[..k + 1];
    } else {
      assert events[..k + 1] == events;
    }
  }

  /** A number's bytes stay in the map until it is added again. */
  lemma {:induction false} MapKeeps(slots: nat, first: nat, events: seq<Event>, k: nat)
    requires slots > 0 && k < |events| && events[k].Published?
    requires forall j :: k < j < |events| && events[j].Published? && events[j].layer == events[k].layer ==>
               events[j].add.number != events[k].add.number
    ensures var m := PacketRing.Followed(slots, first, Adds(events, events[k].layer));
            events[k].add.number in m.cache && m.cache[events[k].add.number] == events[k].add.packet
    decreases |events|
  {
    hide PacketRing.Followed, PacketRing.AddAll, PacketRing.AddPacket, PacketRing.ProperRun, PacketRing.Proper,
         PacketRing.SlotOf, PacketRing.EmptyRing;
    var front, v := events[..|events| - 1], events[|events| - 1];
    var l := events[k].layer;
    if k < |events| - 1 {
      MapKeeps(slots, first, front, k);
    }
    if v.Published? && v.layer == l {
      OneMore(slots, first, Adds(front, l), v.add);
    }
  }

  lemma {:induction false} NumbersBelowHead(slots: nat, first: nat, adds: seq<PacketRing.Add>, u: int)
    requires 1 <= slots <= 65534 && adds != [] && PacketRing.ProperRun(slots, first, adds)
    requires u in PacketRing.Followed(slots, first, adds).cache
    ensures u <= PacketRing.Followed(slots, first, adds).head
  {
    PacketRing.RunAgrees(slots, first, adds);
  }

  lemma {:induction false} OwnBytes(slots: nat, first: nat, events: seq<Event>, k: nat)
    requires slots > 0 && k < |events| && events[k].Published?
    requires PacketRing.ProperRun(slots, first, Adds(events, events[k].layer))
    ensures PacketRing.Cacheable(events[k].add.packet)
    ensures PacketRing.OwnNumber(events[k].add.packet) == Wrap16(events[k].add.number)
    decreases |events|
  {
    hide PacketRing.ProperRun, PacketRing.Followed;
    var front, v := events[..|events| - 1], events[|events| - 1];
    var l := events[k].layer;
    if v.Published? && v.layer == l {
      OneMore(slots, first, Adds(front, l), v.add);
    }
    if k < |events| - 1 {
      OwnBytes(slots, first, front, k);
    }
  }

  /** A packet still cached is found, byte for byte, under its source number. */
  lemma {:induction false} CacheReturns(c: Setup, events: seq<Event>, k: nat)
    requires SetupOk(c) && k < |events| && StillCached(c, events, k) && ProperLayer(c, events, events[k].layer)
    ensures var r := Run(c, events).layers[events[k].layer];
            && PacketRing.WellFormed(r)
            && PacketRing.Get(r, Wrap16(events[k].add.number)) == Some(events[k].add.packet)
  {
    hide PacketRing.Followed, PacketRing.ProperRun, PacketRing.AddAll, Run, Adds, PacketRing.Get, PacketRing.SlotOf;
    var l, u := events[k].layer, events[k].add.number;
    var adds := Adds(events, l);
    AddedIsIn(events, k);
    LayerIsRing(c, events, l);
    MapKeeps(c.slots[l], adds[0].number, events, k);
    NumbersBelowHead(c.slots[l], adds[0].number, adds, u);
    PacketRing.RingRefinesMap(c.slots[l], adds[0].number, adds, u);
  }

  // ---------------------------------------------------------------- the record

  /** The record's own events since the last binding. */
  function History(c: Setup, events: seq<Event>): seq<Q.Event>
    requires SetupOk(c)
  {
    if events == [] then []
    else
      var w, v := Run(c, events[..|events| - 1]), events[|events| - 1];
      if HasRecord(c.mode) && v.Rebound? then []
      else
        match Seen(c, w, v)
        case None => History(c, events[..|events| - 1])
        case Some(q) => History(c, events[..|events| - 1]) + [q]
  }

  lemma {:induction false} RecordIsHistory(c: Setup, events: seq<Event>)
    requires SetupOk(c)
    ensures Run(c, events).record == Q.After(History(c, events))
  {
    hide Seen, Q.Step, Tracked, Cached, RecordAfter;
    if events == [] {
    } else {
      var front, v := events[..|events| - 1], events[|events| - 1];
      RecordIsHistory(c, front);
      if HasRecord(c.mode) && v.Rebound? {
        FreshRecord(c, Run(c, front), v);
      } else {
        SeenIsStep(c, Run(c, front), v);
        var h := History(c, front);
        if Seen(c, Run(c, front), v).Some? {
          assert History(c, events)[..|h|] == h;
        }
      }
    }
  }

  lemma {:induction false} FreshRecord(c: Setup, w: World, v: Event)
    requires WorldOk(w) && HasRecord(c.mode) && v.Rebound?
    ensures RecordAfter(c, w, v) == Q.After([])
  {
  }

  /** What was sent out at event k. */
  function SentAt(c: Setup, events: seq<Event>, k: nat): Option<RtpPacket>
    requires SetupOk(c) && k < |events|
  {
    Forwarded(c, Run(c, events[..k]), events[k])
  }

  /** Event k sent the packet that m records. */
  predicate Origin(c: Setup, events: seq<Event>, k: nat, m: S.PacketMeta)
    requires SetupOk(c) && k < |events|
  {
    && SentAt(c, events, k).Some? && c.parse(events[k].add.packet).Some?
    && c.parse(events[k].add.packet).value.sn == m.sourceSeqNo
    && SentAt(c, events, k).value.sn == m.targetSeqNo && SentAt(c, events, k).value.ts == m.timestamp
  }

  lemma {:induction false} HistoryHasOrigin(c: Setup, events: seq<Event>, i: nat, m: S.PacketMeta) returns (k: nat)
    requires SetupOk(c) && i < |History(c, events)| && Q.SentAs(History(c, events)[i], m)
    ensures k < |events| && Origin(c, events, k, m)
    decreases |events|
  {
    hide Tracked, Cached, Write, Run;
    var front := events[..|events| - 1];
    if i < |History(c, front)| && History(c, front)[i] == History(c, events)[i] {
      k := HistoryHasOrigin(c, front, i, m);
      assert front[..k] == events[..k];
    } else {
      k := |events| - 1;
    }
  }

  /**
   A forwarded packet is the publisher's payload under the outgoing identity.
   */
  lemma {:induction false} ForwardedPayload(c: Setup, w: World, v: Event)
    requires WorldOk(w) && Forwarded(c, w, v).Some?
    ensures var p := Forwarded(c, w, v).value;
            && p.ssrc == c.ssrc && p.payloadType == c.payloadType
            && v.Published? && c.parse(v.add.packet).Some? && p.payload == c.parse(v.add.packet).value.payload
  {
    hide TimeStep;
  }

  /**
   Fidelity: in any run of packets, requests, bindings and layer changes, a record returned
   for a nonzero number stems from a packet sent under exactly that number; and for every
   such packet still in its cache, the one sent again is equal to it: the same number,
   timestamp, payload and identity.
   */
  lemma {:induction false} ResentIsFirstSent(c: Setup, events: seq<Event>, target: uint16, now: uint32)
    requires SetupOk(c) && HeaderOk(c.parse)
    requires forall l :: 0 <= l < |c.slots| ==> ProperLayer(c, events, l)
    requires target != 0 && S.AskOne(Run(c, events).record, target, now).1 != []
    ensures var w := Run(c, events);
            var m := S.AskOne(w.record, target, now).1[0];
            && m.targetSeqNo == target
            && (exists k :: 0 <= k < |events| && Origin(c, events, k, m))
            && forall k :: 0 <= k < |events| && Origin(c, events, k, m) && StillCached(c, events, k) && events[k].layer == m.layer ==>
                 && PacketRing.WellFormed(w.layers[m.layer])
                 && Rebuilt(w.layers[m.layer], c.parse, m, c.ssrc, c.payloadType) == SentAt(c, events, k)
  {
    hide Run, Rebuilt, S.AskOne, Q.After, History, ProperLayer, CacheMap, SentAt;
    var w := Run(c, events);
    var m := S.AskOne(w.record, target, now).1[0];
    RecordIsHistory(c, events);
    Q.ReturnedWasSent(History(c, events), target, now);
    var i := HistoryIndex(History(c, events), m);
    var o := HistoryHasOrigin(c, events, i, m);
    forall k | 0 <= k < |events| && Origin(c, events, k, m) && StillCached(c, events, k) && events[k].layer == m.layer
      ensures PacketRing.WellFormed(w.layers[m.layer])
      ensures Rebuilt(w.layers[m.layer], c.parse, m, c.ssrc, c.payloadType) == SentAt(c, events, k)
    {
      OriginRebuilt(c, events, k, m);
    }
  }

  lemma {:induction false} HistoryIndex(h: seq<Q.Event>, m: S.PacketMeta) returns (i: nat)
    requires Q.WasSent(h, m)
    ensures i < |h| && Q.SentAs(h[i], m)
  {
    i :| 0 <= i < |h| && Q.SentAs(h[i], m);
  }

  lemma {:induction false} OriginRebuilt(c: Setup, events: seq<Event>, k: nat, m: S.PacketMeta)
    requires SetupOk(c) && HeaderOk(c.parse) && k < |events| && Origin(c, events, k, m) && StillCached(c, events, k)
    requires ProperLayer(c, events, events[k].layer) && events[k].layer == m.layer
    ensures PacketRing.WellFormed(Run(c, events).layers[m.layer])
    ensures Rebuilt(Run(c, events).layers[m.layer], c.parse, m, c.ssrc, c.payloadType) == SentAt(c, events, k)
  {
    hide Run, PacketRing.Get, Adds, PacketRing.ProperRun, Forwarded, CacheMap;
    var l := events[k].layer;
    CacheReturns(c, events, k);
    OwnBytes(c.slots[l], Adds(events, l)[0].number, events, k);
    ForwardedPayload(c, Run(c, events[..k]), events[k]);
  }

  // ---------------------------------------------------------------- a packet of the wrong layer

  /** A change to layer 1 is wanted, a key frame of layer 0 comes first, and layer 1 publishes the same number. */
  function WrongLayerRun(u: nat, a: PacketRing.Packet, b: PacketRing.Packet): seq<Event> {
    [Relayered(0, 1), Published(0, PacketRing.Add(u, a, true), 1, true, true),
     Published(1, PacketRing.Add(u, b, true), 1, true, false)]
  }

  lemma {:induction false} FirstAsked(u: uint16, m: S.PacketMeta, now: uint32)
    requires 0 < u && m.targetSeqNo == u && m.lastNack == 0
    ensures S.AskOne(S.Push(S.NewState(), m.sourceSeqNo, u, m.timestamp, m.layer, true), u, now).1 == [m.(lastNack := now)]
  {
    assert S.Skip(0, 0) == 0;
  }

  lemma {:induction false} FirstCached(n: nat, u: nat, p: PacketRing.Packet)
    requires 1 <= n <= 65534 && PacketRing.Cacheable(p) && PacketRing.OwnNumber(p) == u && u < 0x1_0000
    ensures var r := PacketRing.AddPacket(PacketRing.EmptyRing(n), p, u, true);
            PacketRing.WellFormed(r) && PacketRing.Get(r, u) == Some(p)
  {
    hide PacketRing.OwnNumber;
    var e := PacketRing.EmptyRing(n);
    PacketRing.ModUnique(0, 0, 0, n);
    PacketRing.ModUnique(1, if n == 1 then 1 else 0, if n == 1 then 0 else 1, n);
    assert PacketRing.Gap(PacketRing.Started(e, u), u) == 1;
    var r := PacketRing.AddPacket(e, p, u, true);
    assert r == PacketRing.Ring(true, u, 1 % n, e.slots[0 := Some(p)]);
    assert PacketRing.LookupSlot(r, u) == Some(0);
  }

  /** The first packet of a simulcast source, forwarded while layer 1 is wanted. */
  lemma {:induction false} FirstWritten(p: RtpPacket, ssrc: uint32, payloadType: uint8)
    ensures var t := BOUND.(currentLayer := 0, targetLayer := 1);
            var (t', e) := Write(Simulcast, t, ExtPacket(true, 1, true, p), ssrc, payloadType);
            t'.currentLayer == 1 && e.sent == Some(RtpPacket(payloadType, p.sn, p.ts, ssrc, p.payload))
  {
  }

  /** Where that run ends: the record names layer 1, whose cache holds the other packet. */
  lemma {:induction false} WrongLayerEnds(c: Setup, u: nat, a: PacketRing.Packet, b: PacketRing.Packet)
    requires SetupOk(c) && c.mode == Simulcast && |c.slots| == 2 && 0 < u < 0x1_0000
    requires c.parse(a).Some? && c.parse(a).value.sn == u
    ensures var p, events := c.parse(a).value, WrongLayerRun(u, a, b);
            && SentAt(c, events, 1) == Some(RtpPacket(c.payloadType, u, p.ts, c.ssrc, p.payload))
            && Run(c, events).layers[1] == PacketRing.AddPacket(PacketRing.EmptyRing(c.slots[1]), b, u, true)
            && Run(c, events).record == S.Push(S.NewState(), u, u, p.ts, 1, true)
  {
    hide Write, PacketRing.AddPacket, S.Push;
    var events := WrongLayerRun(u, a, b);
    assert events[..3] == events && events[..3][..2] == events[..2] && events[..2][..1] == events[..1] && events[..1][..0] == [];
    assert Wrap16(u) == u;
    FirstWritten(c.parse(a).value, c.ssrc, c.payloadType);
    assert Run(c, events[..1]).track == BOUND.(currentLayer := 0, targetLayer := 1);
    assert Run(c, events[..1]).layers == Rings(c.slots);
    assert Run(c, events[..2]).layers[1] == PacketRing.EmptyRing(c.slots[1]);
  }

  /**
   The record does not keep the layer a packet came on but the one wanted: a key frame of
   layer 0 that ends the wait for layer 1 is answered, when asked for, with the packet of
   layer 1 that has the same number.
   */
  lemma {:induction false} WrongLayerResent(c: Setup, u: nat, a: PacketRing.Packet, b: PacketRing.Packet, now: uint32)
    requires SetupOk(c) && c.mode == Simulcast && |c.slots| == 2 && 0 < u < 0x1_0000
    requires PacketRing.Cacheable(a) && PacketRing.OwnNumber(a) == u && c.parse(a).Some? && c.parse(a).value.sn == u
    requires PacketRing.Cacheable(b) && PacketRing.OwnNumber(b) == u && c.parse(b).Some?
    ensures var events := WrongLayerRun(u, a, b);
            var w := Run(c, events);
            var found := S.AskOne(w.record, u, now).1;
            && |found| == 1 && found[0].layer == 1 && Origin(c, events, 1, found[0])
            && SentAt(c, events, 1).value.payload == c.parse(a).value.payload
            && PacketRing.WellFormed(w.layers[1])
            && Rebuilt(w.layers[1], c.parse, found[0], c.ssrc, c.payloadType) ==
               Some(SentAt(c, events, 1).value.(payload := c.parse(b).value.payload))
  {
    hide Run, S.AskOne, S.Push, PacketRing.Get, PacketRing.AddPacket, SentAt;
    var p := c.parse(a).value;
    WrongLayerEnds(c, u, a, b);
    FirstAsked(u, S.PacketMeta(u, u, p.ts, 0, 1), now);
    FirstCached(c.slots[1], u, b);
  }
}
