/**
 A whole negative acknowledgement answered: every number it lists whose record is found
 and whose packet is still cached is sent again as it was sent first.
 */
module NackAnswers {
  import opened Words
  import opened DownTrack
  import opened Retransmission
  import opened RetransmissionRuns
  import opened NackPairs
  import PacketRing
  import S = Sequencer
  import Q = SequencerRuns

  // ---------------------------------------------------------------- the numbers asked for

  /** The requests of an acknowledgement are for the numbers its pairs name, in order. */
  lemma {:induction false} AsksForThePairs(nacks: seq<NackPair>, times: seq<uint32>)
    requires |times| == |nacks|
    ensures var events, numbers := NackEvents(nacks, times), ReadPairs(nacks);
            && |events| == |numbers|
            && forall p :: 0 <= p < |events| ==> events[p].Asked? && events[p].target == numbers[p]
  {
    hide PacketList;
    if nacks != [] {
      var n := |nacks| - 1;
      AsksForThePairs(nacks[..n], times[..n]);
      AskedInTurnAre(PacketList(nacks[n]), times[n]);
    }
  }

  lemma {:induction false} AskedInTurnAre(targets: seq<uint16>, now: uint32)
    ensures forall p :: 0 <= p < |targets| ==> Q.AskedInTurn(targets, now)[p] == Q.Asked(targets[p], now)
  {
    if targets != [] {
      AskedInTurnAre(targets[..|targets| - 1], now);
    }
  }

  // ---------------------------------------------------------------- the records found

  /** What is found for event p of a run is among all that is returned. */
  lemma {:induction false} FoundIsReturned(s: S.State, events: seq<Q.Event>, p: nat)
    requires S.WellFormed(s) && p < |events|
    ensures forall m :: m in Q.Step(Q.Run(s, events[..p]).0, events[p]).1 ==> m in Q.Run(s, events).1
    decreases |events|
  {
    hide Q.Step;
    var n := |events| - 1;
    if p < n {
      FoundIsReturned(s, events[..n], p);
      assert events[..n][..p] == events[..p];
    }
  }

  /** The answer to the p-th number, in its turn. */
  function AnswerTo(c: Setup, events: seq<Event>, nacks: seq<NackPair>, times: seq<uint32>, p: nat): seq<S.PacketMeta>
    requires SetupOk(c) && |times| == |nacks|
  {
    var asked := NackEvents(nacks, times);
    if p < |asked| then Q.Step(Q.Run(Run(c, events).record, asked[..p]).0, asked[p]).1 else []
  }

  /** The caches of a world, one for each layer. */
  function CachesOf(w: World): (r: seq<Option<Ring>>)
    ensures |r| == |w.layers|
  {
    seq(|w.layers|, l requires 0 <= l < |w.layers| => Some(w.layers[l]))
  }

  lemma {:induction false} CachesOk(c: Setup, events: seq<Event>)
    requires SetupOk(c) && forall l :: 0 <= l < |c.slots| ==> ProperLayer(c, events, l)
    ensures LayersOk(CachesOf(Run(c, events)))
  {
    hide Run, PacketRing.Followed, PacketRing.AddAll, PacketRing.WellFormed;
    forall l | 0 <= l < |c.slots| ensures PacketRing.WellFormed(Run(c, events).layers[l]) {
      LayerIsRing(c, events, l);
      assert ProperLayer(c, events, l);
      if Adds(events, l) == [] {
        EmptyCache(c.slots[l]);
      } else {
        PacketRing.RunAgrees(c.slots[l], Adds(events, l)[0].number, Adds(events, l));
        AgreesIsWell(PacketRing.AddAll(PacketRing.EmptyRing(c.slots[l]), Adds(events, l)),
                     PacketRing.Followed(c.slots[l], Adds(events, l)[0].number, Adds(events, l)));
      }
    }
  }

  lemma {:induction false} AgreesIsWell(r: Ring, m: PacketRing.Model)
    requires PacketRing.Agrees(r, m)
    ensures PacketRing.WellFormed(r)
  {
    hide PacketRing.OwnerAgrees;
  }

  lemma {:induction false} EmptyCache(slots: nat)
    requires 1 <= slots <= 65534
    ensures PacketRing.WellFormed(PacketRing.AddAll(PacketRing.EmptyRing(slots), []))
  {
  }

  /** What is found for a nonzero number stems from a packet sent under it. */
  lemma {:induction false} AnswerHasOrigin(
      c: Setup, events: seq<Event>, nacks: seq<NackPair>, times: seq<uint32>, p: nat) returns (k: nat)
    requires SetupOk(c) && |times| == |nacks| && p < |ReadPairs(nacks)|
    requires ReadPairs(nacks)[p] != 0 && AnswerTo(c, events, nacks, times, p) != []
    ensures k < |events| && Origin(c, events, k, AnswerTo(c, events, nacks, times, p)[0])
    ensures AnswerTo(c, events, nacks, times, p)[0].targetSeqNo == ReadPairs(nacks)[p]
  {
    hide Run, S.AskOne, History, Q.Run, NackEvents, Origin;
    var h, asked := History(c, events), NackEvents(nacks, times);
    AsksForThePairs(nacks, times);
    RecordIsHistory(c, events);
    Continued(h, asked[..p]);
    Q.ReturnedWasSent(h + asked[..p], asked[p].target, asked[p].now);
    var m := AnswerTo(c, events, nacks, times, p)[0];
    var i := HistoryIndex(h + asked[..p], m);
    assert i < |h|;
    k := HistoryHasOrigin(c, events, i, m);
  }

  lemma {:induction false} Continued(h: seq<Q.Event>, asked: seq<Q.Event>)
    ensures Q.After(h + asked) == Q.Run(Q.After(h), asked).0
  {
    Q.RunOn(S.NewState(), h, asked);
  }

  // ---------------------------------------------------------------- the packets sent

  /** All that is sent again for an acknowledgement after a run. */
  function SentAgain(c: Setup, events: seq<Event>, nacks: seq<NackPair>, times: seq<uint32>): seq<RtpPacket>
    requires SetupOk(c) && |times| == |nacks| && LayersOk(CachesOf(Run(c, events)))
  {
    AllResent(CachesOf(Run(c, events)), c.parse, Answered(Run(c, events).record, nacks, times).1, c.ssrc, c.payloadType)
  }

  /** Every record found for the acknowledgement names a layer that has a cache. */
  predicate LayersKnown(c: Setup, events: seq<Event>, nacks: seq<NackPair>, times: seq<uint32>)
    requires SetupOk(c) && |times| == |nacks|
  {
    forall m :: m in Answered(Run(c, events).record, nacks, times).1 ==> m.layer < |c.slots|
  }

  /** A record whose packet is retrievable is sent, when no layer is missing. */
  lemma {:induction false} RetrievableIsSent(
      layers: seq<Option<Ring>>, parse: Parse, ms: seq<S.PacketMeta>, ssrc: uint32, payloadType: uint8, m: S.PacketMeta)
    requires LayersOk(layers) && m in ms && Retrievable(layers, parse, m)
    requires forall x :: x in ms ==> x.layer < |layers| && layers[x.layer].Some?
    ensures Retrieved(layers, parse, m, ssrc, payloadType) in AllResent(layers, parse, ms, ssrc, payloadType)
  {
    hide AllResent, Retrievable, Retrieved;
    var cut, at := SentPositions(layers, parse, ms, ssrc, payloadType);
    var j :| 0 <= j < |ms| && ms[j] == m;
    assert forall x :: 0 <= x < |ms| ==> ms[x] in ms;
    var i :| 0 <= i < |at| && at[i] == j;
    assert AllResent(layers, parse, ms, ssrc, payloadType)[i] == Retrieved(layers, parse, m, ssrc, payloadType);
  }

  lemma {:induction false} RebuiltIsRetrieved(w: World, parse: Parse, m: S.PacketMeta, ssrc: uint32, payloadType: uint8)
    requires LayersOk(CachesOf(w)) && m.layer < |w.layers| && PacketRing.WellFormed(w.layers[m.layer])
    requires Rebuilt(w.layers[m.layer], parse, m, ssrc, payloadType).Some?
    ensures Retrievable(CachesOf(w), parse, m)
    ensures Retrieved(CachesOf(w), parse, m, ssrc, payloadType) ==
            Rebuilt(w.layers[m.layer], parse, m, ssrc, payloadType).value
  {
    hide PacketRing.Get, PacketRing.WellFormed;
  }

  /**
   Every nonzero number that an acknowledgement lists and whose record is found stems from a
   packet sent under it; and when that was published on the layer recorded and is still
   cached, it is among the packets sent again, equal to what was sent first.
   */
  lemma {:induction false} AnsweredInFull(
      c: Setup, events: seq<Event>, nacks: seq<NackPair>, times: seq<uint32>, p: nat)
    requires SetupOk(c) && HeaderOk(c.parse) && |times| == |nacks|
    requires forall l :: 0 <= l < |c.slots| ==> ProperLayer(c, events, l)
    requires LayersKnown(c, events, nacks, times)
    requires p < |ReadPairs(nacks)| && ReadPairs(nacks)[p] != 0
    requires AnswerTo(c, events, nacks, times, p) != []
    ensures LayersOk(CachesOf(Run(c, events)))
    ensures var m := AnswerTo(c, events, nacks, times, p)[0];
            && m.targetSeqNo == ReadPairs(nacks)[p]
            && (exists k :: 0 <= k < |events| && Origin(c, events, k, m))
            && forall k :: 0 <= k < |events| && Origin(c, events, k, m) && StillCached(c, events, k)
                           && events[k].layer == m.layer ==>
                 SentAt(c, events, k).Some? && SentAt(c, events, k).value in SentAgain(c, events, nacks, times)
  {
    hide Run, NackEvents, Origin, SentAt, ProperLayer, AllResent, Answered, ReadPairs, AnswerTo, HeaderOk,
         LayersOk, Retrievable, Retrieved, Rebuilt;
    AsksForThePairs(nacks, times);
    CachesOk(c, events);
    var m := AnswerTo(c, events, nacks, times, p)[0];
    var o := AnswerHasOrigin(c, events, nacks, times, p);
    AnswerIsFound(c, events, nacks, times, p);
    forall k | 0 <= k < |events| && Origin(c, events, k, m) && StillCached(c, events, k) && events[k].layer == m.layer
      ensures SentAt(c, events, k).Some? && SentAt(c, events, k).value in SentAgain(c, events, nacks, times)
    {
      var w := Run(c, events);
      OriginSent(c, events, k, m);
      OriginRebuilt(c, events, k, m);
      RebuiltIsRetrieved(w, c.parse, m, c.ssrc, c.payloadType);
      RetrievableIsSent(CachesOf(w), c.parse, Answered(w.record, nacks, times).1, c.ssrc, c.payloadType, m);
    }
  }

  lemma {:induction false} OriginSent(c: Setup, events: seq<Event>, k: nat, m: S.PacketMeta)
    requires SetupOk(c) && k < |events| && Origin(c, events, k, m)
    ensures SentAt(c, events, k).Some?
  {
    hide SentAt;
  }

  lemma {:induction false} AnswerIsFound(c: Setup, events: seq<Event>, nacks: seq<NackPair>, times: seq<uint32>, p: nat)
    requires SetupOk(c) && |times| == |nacks| && AnswerTo(c, events, nacks, times, p) != []
    ensures AnswerTo(c, events, nacks, times, p)[0] in Answered(Run(c, events).record, nacks, times).1
  {
    hide Run, NackEvents, Answered, Q.Run, S.AskOne;
    NackIsRun(Run(c, events).record, nacks, times);
    FoundIsReturned(Run(c, events).record, NackEvents(nacks, times), p);
  }

  // ---------------------------------------------------------------- which tracks keep a record

  /** A video track, plain or simulcast, can send again what it sent last. */
  lemma {:induction false} VideoIsRecorded(c: Setup, events: seq<Event>, now: uint32)
    requires SetupOk(c) && (c.mode == Simple(true) || c.mode == Simulcast)
    requires events != [] && events[|events| - 1].Published? && events[|events| - 1].add.latest
    requires SentAt(c, events, |events| - 1).Some?
    ensures var sent := SentAt(c, events, |events| - 1).value;
            var found := S.AskOne(Run(c, events).record, sent.sn, now).1;
            && |found| == 1 && found[0].targetSeqNo == sent.sn && found[0].timestamp == sent.ts
            && Origin(c, events, |events| - 1, found[0])
  {
    hide Write, Cached, Tracked, Kept, S.AskOne, S.Push;
    var n := |events| - 1;
    var w, v := Run(c, events[..n]), events[n];
    var sent := SentAt(c, events, n).value;
    Q.NewestFound(w.record, Offered(c, w, v).value.packet.sn, sent.sn, sent.ts, LayerOf(c.mode, Tracked(c, w, v)), now);
  }

  /** A plain audio track keeps no record, whatever it sends and is asked for. */
  lemma {:induction false} AudioIsNotRecorded(c: Setup, events: seq<Event>)
    requires SetupOk(c) && c.mode == Simple(false)
    ensures Run(c, events).record == S.NewState()
  {
    hide Cached, Tracked, S.NewState;
    if events != [] {
      AudioIsNotRecorded(c, events[..|events| - 1]);
    }
  }

  // ---------------------------------------------------------------- plain tracks

  lemma {:induction false} SimpleHistory(c: Setup, events: seq<Event>, i: nat)
    requires SetupOk(c) && c.mode.Simple? && i < |History(c, events)|
    ensures History(c, events)[i].Sent? ==> History(c, events)[i].layer == 0
    decreases |events|
  {
    hide Tracked, Cached, Write, Run;
    var front := events[..|events| - 1];
    if i < |History(c, front)| && History(c, front)[i] == History(c, events)[i] {
      SimpleHistory(c, front, i);
    }
  }

  /**
   Whatever layers are set, the records of a plain track name layer 0, and a packet
   published there and still cached is fetched from there.
   */
  lemma {:induction false} SimpleLayerZero(c: Setup, events: seq<Event>, target: uint16, now: uint32)
    requires SetupOk(c) && HeaderOk(c.parse) && c.mode.Simple? && 0 < |c.slots|
    requires forall l :: 0 <= l < |c.slots| ==> ProperLayer(c, events, l)
    requires target != 0 && S.AskOne(Run(c, events).record, target, now).1 != []
    ensures var w, m := Run(c, events), S.AskOne(Run(c, events).record, target, now).1[0];
            && m.layer == 0
            && forall k :: 0 <= k < |events| && Origin(c, events, k, m) && StillCached(c, events, k) && events[k].layer == 0 ==>
                 && PacketRing.WellFormed(w.layers[0])
                 && Rebuilt(w.layers[0], c.parse, m, c.ssrc, c.payloadType) == SentAt(c, events, k)
  {
    hide Run, Rebuilt, S.AskOne, Q.After, History, ProperLayer, SentAt, Origin;
    var m := S.AskOne(Run(c, events).record, target, now).1[0];
    RecordIsHistory(c, events);
    Q.ReturnedWasSent(History(c, events), target, now);
    var i := HistoryIndex(History(c, events), m);
    SimpleHistory(c, events, i);
    forall k | 0 <= k < |events| && Origin(c, events, k, m) && StillCached(c, events, k) && events[k].layer == 0
      ensures PacketRing.WellFormed(Run(c, events).layers[0])
      ensures Rebuilt(Run(c, events).layers[0], c.parse, m, c.ssrc, c.payloadType) == SentAt(c, events, k)
    {
      OriginRebuilt(c, events, k, m);
    }
  }
}
