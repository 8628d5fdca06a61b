/**
 Answering a negative acknowledgement: the record of sent packets names the source packet,
 the cache returns its bytes, and the header is rewritten as it was when first forwarded.
 */
module Retransmission {
  import opened Words
  import opened DownTrack
  import PacketRing
  import Bucket
  import S = Sequencer

  type Ring = PacketRing.Ring
  type Parse = seq<uint8> -> Option<RtpPacket>

  /** One packet of a request: none without its layer's cache, its bytes, or a header in them. */
  function Resent(layers: seq<Option<Ring>>, parse: Parse, m: S.PacketMeta, ssrc: uint32, payloadType: uint8): Option<RtpPacket>
    requires LayersOk(layers)
  {
    if !Available(layers, m) then None else Rebuilt(layers[m.layer].value, parse, m, ssrc, payloadType)
  }

  function Rebuilt(r: Ring, parse: Parse, m: S.PacketMeta, ssrc: uint32, payloadType: uint8): Option<RtpPacket>
    requires PacketRing.WellFormed(r)
  {
    match PacketRing.Get(r, m.sourceSeqNo)
    case None => None
    case Some(bytes) =>
      match parse(bytes)
      case None => None
      case Some(p) => Some(RtpPacket(payloadType, m.targetSeqNo, m.timestamp, ssrc, p.payload))
  }

  predicate LayersOk(layers: seq<Option<Ring>>) {
    forall l :: 0 <= l < |layers| && layers[l].Some? ==> PacketRing.WellFormed(layers[l].value)
  }

  predicate Available(layers: seq<Option<Ring>>, m: S.PacketMeta) { m.layer < |layers| && layers[m.layer].Some? }

  /** A whole request: the first record of a layer without a cache ends it. */
  function AllResent(layers: seq<Option<Ring>>, parse: Parse, ms: seq<S.PacketMeta>, ssrc: uint32, payloadType: uint8): seq<RtpPacket>
    requires LayersOk(layers)
  {
    if ms == [] || !Available(layers, ms[0]) then []
    else
      var rest := AllResent(layers, parse, ms[1..], ssrc, payloadType);
      match Resent(layers, parse, ms[0], ssrc, payloadType)
      case None => rest
      case Some(p) => [p] + rest
  }

  /** The packet of a record is in its layer's cache and parses. */
  predicate Retrievable(layers: seq<Option<Ring>>, parse: Parse, m: S.PacketMeta)
    requires LayersOk(layers)
  {
    && m.layer < |layers| && layers[m.layer].Some?
    && PacketRing.Get(layers[m.layer].value, m.sourceSeqNo).Some?
    && parse(PacketRing.Get(layers[m.layer].value, m.sourceSeqNo).value).Some?
  }

  /** That packet's payload under the outgoing identity and the number and timestamp recorded. */
  function Retrieved(layers: seq<Option<Ring>>, parse: Parse, m: S.PacketMeta, ssrc: uint32, payloadType: uint8): RtpPacket
    requires LayersOk(layers) && Retrievable(layers, parse, m)
  {
    var p := parse(PacketRing.Get(layers[m.layer].value, m.sourceSeqNo).value).value;
    RtpPacket(payloadType, m.targetSeqNo, m.timestamp, ssrc, p.payload)
  }

  /** Which records of a request are sent: those retrievable before the one that cuts it off, in order. */
  ghost predicate Positions(layers: seq<Option<Ring>>, parse: Parse, ms: seq<S.PacketMeta>, cut: nat, at: seq<nat>)
    requires LayersOk(layers)
  {
    && cut <= |ms|
    && (forall j :: 0 <= j < cut ==> ms[j].layer < |layers| && layers[ms[j].layer].Some?)
    && (cut < |ms| ==> ms[cut].layer >= |layers| || layers[ms[cut].layer].None?)
    && (forall i, j :: 0 <= i < j < |at| ==> at[i] < at[j])
    && (forall i :: 0 <= i < |at| ==> at[i] < cut)
    && (forall j :: 0 <= j < cut ==> (j in at <==> Retrievable(layers, parse, ms[j])))
  }

  /** And what is sent for them. */
  ghost predicate SentFrom(
      layers: seq<Option<Ring>>, parse: Parse, ms: seq<S.PacketMeta>, ssrc: uint32, payloadType: uint8,
      sent: seq<RtpPacket>, cut: nat, at: seq<nat>)
    requires LayersOk(layers)
  {
    && Positions(layers, parse, ms, cut, at) && |sent| == |at|
    && (forall i :: 0 <= i < |sent| ==> at[i] < |ms| && Retrievable(layers, parse, ms[at[i]])
                                        && sent[i] == Retrieved(layers, parse, ms[at[i]], ssrc, payloadType))
  }

  /** What becomes of each record: nothing when its layer has no cache, else the packet, if there is one. */
  function Outcomes(layers: seq<Option<Ring>>, parse: Parse, ms: seq<S.PacketMeta>, ssrc: uint32, payloadType: uint8)
      : (r: seq<Option<Option<RtpPacket>>>)
    requires LayersOk(layers)
    ensures |r| == |ms|
  {
    seq(|ms|, j requires 0 <= j < |ms| =>
      if Available(layers, ms[j]) then Some(Resent(layers, parse, ms[j], ssrc, payloadType)) else None)
  }

  /** The packets up to the first record that cuts the request off. */
  function Collected<T>(outcomes: seq<Option<Option<T>>>): seq<T> {
    if outcomes == [] || outcomes[0] == None then []
    else (if outcomes[0].value.Some? then [outcomes[0].value.value] else []) + Collected(outcomes[1..])
  }

  function Later(at: seq<nat>): (r: seq<nat>)
    ensures |r| == |at| && forall i :: 0 <= i < |at| ==> r[i] == at[i] + 1
  {
    seq(|at|, i requires 0 <= i < |at| => at[i] + 1)
  }

  lemma {:induction false} LaterHas(a: seq<nat>, j: int)
    ensures j in Later(a) <==> j > 0 && j - 1 in a
  {
    if j - 1 in a {
      var i :| 0 <= i < |a| && a[i] == j - 1;
      assert Later(a)[i] == j;
    }
  }

  ghost predicate Picked<T>(outcomes: seq<Option<Option<T>>>, cut: nat, at: seq<nat>) {
    && cut <= |outcomes| && (cut < |outcomes| ==> outcomes[cut] == None)
    && (forall j :: 0 <= j < cut ==> outcomes[j].Some? && (j in at <==> outcomes[j].value.Some?))
    && (forall i, j :: 0 <= i < j < |at| ==> at[i] < at[j])
    && (forall i :: 0 <= i < |at| ==> at[i] < cut)
  }

  lemma {:induction false} PickedLater<T>(outcomes: seq<Option<Option<T>>>, c: nat, a: seq<nat>)
    requires outcomes != [] && outcomes[0].Some? && Picked(outcomes[1..], c, a)
    ensures Picked(outcomes, c + 1, (if outcomes[0].value.Some? then [0] else []) + Later(a))
  {
    var rest, at := outcomes[1..], (if outcomes[0].value.Some? then [0] else []) + Later(a);
    forall j | 0 <= j < c + 1 ensures outcomes[j].Some? && (j in at <==> outcomes[j].value.Some?) {
      LaterHas(a, j);
      if j > 0 {
        assert outcomes[j] == rest[j - 1];
      }
    }
    assert c < |rest| ==> outcomes[c + 1] == rest[c];
  }

  /** The packets collected are those of the outcomes at these places. */
  predicate From<T(==)>(outcomes: seq<Option<Option<T>>>, at: seq<nat>, collected: seq<T>) {
    |collected| == |at| && forall i :: 0 <= i < |at| ==> at[i] < |outcomes| && outcomes[at[i]] == Some(Some(collected[i]))
  }

  lemma {:induction false} FromLater<T>(outcomes: seq<Option<Option<T>>>, a: seq<nat>, collected: seq<T>)
    requires outcomes != [] && From(outcomes[1..], a, collected)
    ensures From(outcomes, Later(a), collected)
  {
    forall i | 0 <= i < |a| ensures Later(a)[i] < |outcomes| && outcomes[Later(a)[i]] == Some(Some(collected[i])) {
      assert outcomes[a[i] + 1] == outcomes[1..][a[i]];
    }
  }

  lemma {:induction false} FromFirst<T>(outcomes: seq<Option<Option<T>>>, a: seq<nat>, collected: seq<T>, x: T)
    requires outcomes != [] && outcomes[0] == Some(Some(x)) && From(outcomes, a, collected)
    ensures From(outcomes, [0] + a, [x] + collected)
  {
  }

  lemma {:induction false} NothingPicked<T>(outcomes: seq<Option<Option<T>>>)
    requires outcomes == [] || outcomes[0] == None
    ensures Picked(outcomes, 0, []) && From(outcomes, [], Collected(outcomes))
  {
  }

  /** A first outcome that does not cut the request off. */
  lemma {:induction false} FirstOutcome<T>(outcomes: seq<Option<Option<T>>>, c: nat, a: seq<nat>) returns (at: seq<nat>)
    requires outcomes != [] && outcomes[0].Some?
    requires Picked(outcomes[1..], c, a) && From(outcomes[1..], a, Collected(outcomes[1..]))
    ensures Picked(outcomes, c + 1, at) && From(outcomes, at, Collected(outcomes))
  {
    hide Picked, From, Later;
    var rest := Collected(outcomes[1..]);
    PickedLater(outcomes, c, a);
    FromLater(outcomes, a, rest);
    if outcomes[0].value.Some? {
      at := [0] + Later(a);
      FromFirst(outcomes, Later(a), rest, outcomes[0].value.value);
      assert Collected(outcomes) == [outcomes[0].value.value] + rest;
    } else {
      at := [] + Later(a);
      assert at == Later(a) && Collected(outcomes) == [] + rest == rest;
    }
  }

  lemma {:induction false} CollectedAt<T>(outcomes: seq<Option<Option<T>>>) returns (cut: nat, at: seq<nat>)
    ensures Picked(outcomes, cut, at) && From(outcomes, at, Collected(outcomes))
  {
    hide Picked, From, Collected;
    if outcomes == [] || outcomes[0] == None {
      NothingPicked(outcomes);
      cut, at := 0, [];
    } else {
      var c, a := CollectedAt(outcomes[1..]);
      at := FirstOutcome(outcomes, c, a);
      cut := c + 1;
    }
  }

  lemma {:induction false} ResentAreCollected(
      layers: seq<Option<Ring>>, parse: Parse, ms: seq<S.PacketMeta>, ssrc: uint32, payloadType: uint8)
    requires LayersOk(layers)
    ensures AllResent(layers, parse, ms, ssrc, payloadType) == Collected(Outcomes(layers, parse, ms, ssrc, payloadType))
    decreases |ms|
  {
    hide Resent, LayersOk, Available;
    if ms != [] {
      ResentAreCollected(layers, parse, ms[1..], ssrc, payloadType);
      var outcomes := Outcomes(layers, parse, ms, ssrc, payloadType);
      assert outcomes[1..] == Outcomes(layers, parse, ms[1..], ssrc, payloadType);
      assert outcomes[0] == if Available(layers, ms[0]) then Some(Resent(layers, parse, ms[0], ssrc, payloadType)) else None;
    }
  }

  lemma {:induction false} OneOutcome(
      layers: seq<Option<Ring>>, parse: Parse, ms: seq<S.PacketMeta>, ssrc: uint32, payloadType: uint8, j: nat)
    requires LayersOk(layers) && j < |ms|
    ensures Outcomes(layers, parse, ms, ssrc, payloadType)[j] ==
            if ms[j].layer >= |layers| || layers[ms[j].layer].None? then None
            else if Retrievable(layers, parse, ms[j]) then Some(Some(Retrieved(layers, parse, ms[j], ssrc, payloadType)))
            else Some(None)
  {
    hide LayersOk, PacketRing.Get;
  }

  /**
   A whole request sends, in order, exactly the packets that are still cached and parse,
   each once, up to the first record of a layer without a cache: a miss skips one record.
   */
  lemma {:induction false} SentPositions(
      layers: seq<Option<Ring>>, parse: Parse, ms: seq<S.PacketMeta>, ssrc: uint32, payloadType: uint8)
      returns (cut: nat, at: seq<nat>)
    requires LayersOk(layers)
    ensures SentFrom(layers, parse, ms, ssrc, payloadType, AllResent(layers, parse, ms, ssrc, payloadType), cut, at)
  {
    hide Retrievable, Retrieved, LayersOk, Outcomes, Collected, AllResent;
    var outcomes := Outcomes(layers, parse, ms, ssrc, payloadType);
    ResentAreCollected(layers, parse, ms, ssrc, payloadType);
    cut, at := CollectedAt(outcomes);
    forall j | 0 <= j < |ms|
      ensures outcomes[j] ==
              if ms[j].layer >= |layers| || layers[ms[j].layer].None? then None
              else if Retrievable(layers, parse, ms[j]) then Some(Some(Retrieved(layers, parse, ms[j], ssrc, payloadType)))
              else Some(None)
    {
      OneOutcome(layers, parse, ms, ssrc, payloadType, j);
    }
  }

  /** The publisher's side: one cache for each layer that has been published. */
  class Receiver {
    var buffers: seq<Bucket.Bucket?>

    ghost predicate Valid()
      reads this, set b | b in buffers && b != null :: b, set b | b in buffers && b != null :: b.buf,
            set b | b in buffers && b != null :: b.nacker
    {
      forall b :: b in buffers && b != null ==> b.Valid()
    }

    /** The caches as values, layer by layer. */
    ghost predicate Shows(layers: seq<Option<Ring>>)
      reads this, set b | b in buffers && b != null :: b
    {
      && |layers| == |buffers|
      && forall l :: 0 <= l < |layers| ==> layers[l] == if buffers[l] == null then None
                                               else (assert buffers[l] in buffers; Some(buffers[l].Value()))
    }

    /** One packet fetched from its cache into a fresh buffer, its header rewritten. */
    method Fetch(cache: Bucket.Bucket, meta: S.PacketMeta, parse: Parse, ssrc: uint32, payloadType: uint8)
        returns (sent: Option<RtpPacket>)
      requires cache.Valid()
      ensures sent == Rebuilt(cache.Value(), parse, meta, ssrc, payloadType)
    {
      var pktBuff := new uint8[Bucket.MAX_PKT_SIZE];
      var n, err := cache.GetPacket(pktBuff, meta.sourceSeqNo);
      if err != Bucket.NoError {
        return None;
      }
      ghost var bytes := PacketRing.Get(cache.Value(), meta.sourceSeqNo).value;
      assert pktBuff[..n] == bytes;
      var pkt := parse(pktBuff[..n]);
      if pkt.None? {
        return None;
      }
      sent := Some(RtpPacket(payloadType, meta.targetSeqNo, meta.timestamp, ssrc, pkt.value.payload));
    }

    method RetransmitPackets(metas: seq<S.PacketMeta>, parse: Parse, ssrc: uint32, payloadType: uint8,
                             ghost layers: seq<Option<Ring>>)
        returns (sent: seq<RtpPacket>)
      requires Valid() && Shows(layers) && LayersOk(layers)
      ensures sent == AllResent(layers, parse, metas, ssrc, payloadType)
    {
      hide Rebuilt;
      sent := [];
      var k := 0;
      while k < |metas|
        invariant k <= |metas|
        invariant AllResent(layers, parse, metas, ssrc, payloadType) ==
                  sent + AllResent(layers, parse, metas[k..], ssrc, payloadType)
      {
        var meta := metas[k];
        assert metas[k..][1..] == metas[k + 1..];
        if meta.layer >= |buffers| || buffers[meta.layer] == null {
          break;
        }
        assert buffers[meta.layer] in buffers;
        var p := Fetch(buffers[meta.layer], meta, parse, ssrc, payloadType);
        if p.Some? {
          sent := sent + [p.value];
        }
        k := k + 1;
      }
    }
  }
}
