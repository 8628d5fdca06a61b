/**
 The whole feedback packet: RTCP framing with padding (section 6.4.1 of RFC 3550 for the
 common header), the sixteen-byte feedback header, chunks and deltas; a reader for it;
 and the proof that the reader recovers what was packed.
 */
module TwccFeedback {
  import opened Words
  import opened TwccFormat
  import opened TwccPacker
  import opened TwccDeltas

  const FORMAT_TCC: uint8 := 15
  const TYPE_TRANSPORT_FEEDBACK: uint8 := 205

  // ---------------------------------------------------------------- writer

  function PadSize(bodyLength: nat): nat { (4 - (bodyLength + 4) % 4) % 4 }

  function Padding(n: nat): seq<uint8>
    requires n < 4
  {
    if n == 0 then [] else Repeat(0, n - 1) + [n]
  }

  /** The common header, the body and the padding that fills the last word. */
  function Framed(body: seq<uint8>): seq<uint8> {
    var pad := PadSize(|body|);
    [0x80 + (if pad > 0 then 0x20 else 0) + FORMAT_TCC, TYPE_TRANSPORT_FEEDBACK]
    + U16Bytes(Wrap16((|body| + 4 + pad) / 4 - 1))
    + body + Padding(pad)
  }

  function HeaderBytes(sender: uint32, media: uint32, count: uint8, pkts: seq<ExtInfo>): (r: seq<uint8>)
    requires pkts != []
    ensures |r| == 16
  {
    var arrival := match FirstArrival(pkts) case Some(t) => t case None => 0;
    HeaderWords(sender, media, Wrap16(pkts[0].tsn), Wrap16(|pkts|),
                Wrap32(Or(Wrap32(Wrap32(ReferenceTime(arrival)) * 0x100), count)))
  }

  function HeaderWords(sender: uint32, media: uint32, base: uint16, n: uint16, time: uint32): (r: seq<uint8>)
    ensures |r| == 16
  {
    U32Bytes(sender) + U32Bytes(media) + U16Bytes(base) + U16Bytes(n) + U32Bytes(time)
  }

  /** The header goes out with the first received packet, so a batch without one has none. */
  function Body(sender: uint32, media: uint32, count: uint8, pkts: seq<ExtInfo>): seq<uint8> {
    (if FirstArrival(pkts).Some? then HeaderBytes(sender, media, count, pkts) else [])
    + ChunkBytes(Chunks(Statuses(pkts))) + DeltaBytes(pkts)
  }

  function FeedbackBytes(sender: uint32, media: uint32, count: uint8, pkts: seq<ExtInfo>): seq<uint8> {
    Framed(Body(sender, media, count, pkts))
  }

  // ---------------------------------------------------------------- reader

  datatype Feedback = Feedback(
    sender: uint32,
    media: uint32,
    base: uint16,
    reference: int,
    count: uint8,
    statuses: seq<Symbol>,
    deltas: seq<int>)

  /** The body of a well-formed packet: version 2, the right types, a length that matches, padding removed. */
  function Unframe(pkt: seq<uint8>): Option<seq<uint8>> {
    if |pkt| < 4 || pkt[0] / 0x40 != 2 || pkt[0] % 0x20 != 15 || pkt[1] != 205 then None
    else if 4 * (U16At(pkt, 2) as int + 1) != |pkt| then None
    else if (pkt[0] / 0x20) % 2 == 0 then Some(pkt[4..])
    else if 0 < pkt[|pkt| - 1] <= |pkt| - 4 then Some(pkt[4..|pkt| - pkt[|pkt| - 1]])
    else None
  }

  function ReadBody(body: seq<uint8>): Option<Feedback> {
    if |body| < 16 then None
    else match ReadStatuses(body[16..], U16At(body, 10))
      case None => None
      case Some(s) =>
        match ReadDeltas(s.0, s.1)
        case None => None
        case Some(d) =>
          if d.1 != [] then None
          else Some(Feedback(U32At(body, 0), U32At(body, 4), U16At(body, 8),
                             U32At(body, 12) / 0x100, U32At(body, 12) % 0x100, s.0, d.0))
  }

  function ReadFeedback(pkt: seq<uint8>): Option<Feedback> {
    match Unframe(pkt)
    case None => None
    case Some(body) => ReadBody(body)
  }

  // ---------------------------------------------------------------- round trip

  lemma {:induction false} FrameSize(n: nat)
    requires n + 7 < 0x4_0000
    ensures (n + 4 + PadSize(n)) % 4 == 0
    ensures Wrap16((n + 4 + PadSize(n)) / 4 - 1) == (n + 4 + PadSize(n)) / 4 - 1
  {
  }

  lemma {:induction false} FrameFields(body: seq<uint8>)
    requires |body| + 7 < 0x4_0000
    ensures var pkt, pad := Framed(body), PadSize(|body|);
            && |pkt| == |body| + 4 + pad
            && U16At(pkt, 2) == Wrap16(|pkt| / 4 - 1)
            && pkt[0] == 0x80 + (if pad > 0 then 0x20 else 0) + FORMAT_TCC && pkt[1] == TYPE_TRANSPORT_FEEDBACK
            && pkt[4..|body| + 4] == body
            && (pad > 0 ==> pkt[|pkt| - 1] == pad)
  {
    var pkt, pad := Framed(body), PadSize(|body|);
    var w := Wrap16((|body| + 4 + pad) / 4 - 1);
    var front: seq<uint8> := [0x80 + (if pad > 0 then 0x20 else 0) + FORMAT_TCC, TYPE_TRANSPORT_FEEDBACK];
    assert pkt == front + U16Bytes(w) + (body + Padding(pad));
    WordAfter(front, w, body + Padding(pad));
    assert pkt[0] == front[0] && pkt[1] == front[1];
  }

  lemma {:induction false} UnframeFields(pkt: seq<uint8>, body: seq<uint8>, pad: nat)
    requires pad < 4 && |pkt| == |body| + 4 + pad && |pkt| % 4 == 0
    requires U16At(pkt, 2) == |pkt| / 4 - 1
    requires pkt[0] == 0x80 + (if pad > 0 then 0x20 else 0) + FORMAT_TCC && pkt[1] == TYPE_TRANSPORT_FEEDBACK
    requires pkt[4..|body| + 4] == body
    requires pad > 0 ==> pkt[|pkt| - 1] == pad
    ensures Unframe(pkt) == Some(body)
  {
    if pad == 0 {
      assert pkt[4..] == body;
    }
  }

  /** The packet's length field counts its words, its padding count its padding, and its body is what was framed. */
  lemma {:induction false} FrameRoundTrip(body: seq<uint8>)
    requires |body| + 7 < 0x4_0000
    ensures |Framed(body)| % 4 == 0
    ensures U16At(Framed(body), 2) == |Framed(body)| / 4 - 1
    ensures Unframe(Framed(body)) == Some(body)
  {
    FrameSize(|body|);
    FrameFields(body);
    UnframeFields(Framed(body), body, PadSize(|body|));
  }

  lemma {:induction false} WordAfter(a: seq<uint8>, w: uint16, b: seq<uint8>)
    ensures U16At(a + U16Bytes(w) + b, |a|) == w
  {
    var s := a + U16Bytes(w) + b;
    assert s[|a|] == U16Bytes(w)[0] && s[|a| + 1] == U16Bytes(w)[1];
  }

  lemma {:induction false} LongAfter(a: seq<uint8>, w: uint32, b: seq<uint8>)
    ensures U32At(a + U32Bytes(w) + b, |a|) == w
  {
    var s := a + U32Bytes(w) + b;
    assert forall i :: 0 <= i < 4 ==> s[|a| + i] == U32Bytes(w)[i];
    assert w / 0x1_0000 == w / 0x100_0000 * 0x100 + w / 0x1_0000 % 0x100;
    assert w % 0x1_0000 == w / 0x100 % 0x100 * 0x100 + w % 0x100;
  }

  lemma {:induction false} OrLowByte(q: nat, count: uint8)
    ensures Or(q * 0x100, count) == q * 0x100 + count
  {
    assert Pow2(8) == 0x100 by {
      assert Pow2(4) == 16;
    }
    OrDisjoint(q, 8, count);
  }

  lemma {:induction false} ShiftedReference(reference: int)
    ensures Wrap32(Wrap32(reference) * 0x100) == reference % 0x100_0000 * 0x100
  {
    LowThree(reference);
    ShiftedWord(Wrap32(reference));
  }

  lemma {:induction false} LowThree(x: int)
    ensures Wrap32(x) % 0x100_0000 == x % 0x100_0000
  {
    assert x == (x / 0x1_0000_0000) * 0x1_0000_0000 + Wrap32(x);
  }

  lemma {:induction false} ShiftedWord(r: uint32)
    ensures Wrap32(r as int * 0x100) == r % 0x100_0000 * 0x100
  {
    assert r as int * 0x100 == r / 0x100_0000 * 0x1_0000_0000 + r % 0x100_0000 * 0x100;
  }

  lemma {:induction false} LowByte(q: nat, count: uint8)
    requires q < 0x100_0000
    ensures Wrap32(q * 0x100 + count) / 0x100 == q && Wrap32(q * 0x100 + count) % 0x100 == count
  {
  }

  /** Reference time and feedback count share a word: the low 24 bits of one, the 8 bits of the other. */
  lemma {:induction false} ReferenceWord(reference: int, count: uint8)
    ensures var w := Wrap32(Or(Wrap32(Wrap32(reference) * 0x100), count));
            w / 0x100 == reference % 0x100_0000 && w % 0x100 == count
  {
    hide Or, Wrap32;
    var q := reference % 0x100_0000;
    ShiftedReference(reference);
    OrLowByte(q, count);
    LowByte(q, count);
  }

  /** What a reader should learn from a packet built for these records. */
  function Expected(sender: uint32, media: uint32, count: uint8, pkts: seq<ExtInfo>): Feedback
    requires FirstArrival(pkts).Some?
    requires pkts != []
  {
    Feedback(sender, media, Wrap16(pkts[0].tsn), ReferenceTime(FirstArrival(pkts).value) % 0x100_0000,
             count, Statuses(pkts), WrittenDeltas(Deltas(pkts)))
  }

  /** The sixteen bytes in front of `rest` say what f and the status count n say. */
  predicate HasHeader(body: seq<uint8>, f: Feedback, n: int, rest: seq<uint8>) {
    && |body| == 16 + |rest| && body[16..] == rest
    && U32At(body, 0) == f.sender && U32At(body, 4) == f.media && U16At(body, 8) == f.base
    && U16At(body, 10) == n
    && U32At(body, 12) / 0x100 == f.reference && U32At(body, 12) % 0x100 == f.count
  }

  lemma {:induction false} HeaderWordFields(sender: uint32, media: uint32, base: uint16, n: uint16, time: uint32, rest: seq<uint8>)
    ensures var body := HeaderWords(sender, media, base, n, time) + rest;
            && |body| == 16 + |rest| && body[16..] == rest
            && U32At(body, 0) == sender && U32At(body, 4) == media && U16At(body, 8) == base
            && U16At(body, 10) == n && U32At(body, 12) == time
  {
    var a, b, c, d, e := U32Bytes(sender), U32Bytes(media), U16Bytes(base), U16Bytes(n), U32Bytes(time);
    var body := HeaderWords(sender, media, base, n, time) + rest;
    assert body == [] + a + (b + c + d + e + rest);
    LongAfter([], sender, b + c + d + e + rest);
    assert body == a + b + (c + d + e + rest);
    LongAfter(a, media, c + d + e + rest);
    assert body == (a + b) + c + (d + e + rest);
    WordAfter(a + b, base, d + e + rest);
    assert body == (a + b + c) + d + (e + rest);
    WordAfter(a + b + c, n, e + rest);
    assert body == (a + b + c + d) + e + rest;
    LongAfter(a + b + c + d, time, rest);
  }

  lemma {:induction false} HeaderFields(
      sender: uint32, media: uint32, count: uint8, pkts: seq<ExtInfo>, arrival: int, f: Feedback, rest: seq<uint8>)
    requires FirstArrival(pkts) == Some(arrival) && 0 < |pkts| < 0x1_0000
    requires f.sender == sender && f.media == media && f.base == Wrap16(pkts[0].tsn)
    requires f.reference == ReferenceTime(arrival) % 0x100_0000 && f.count == count
    ensures HasHeader(HeaderBytes(sender, media, count, pkts) + rest, f, |pkts|, rest)
  {
    hide Or, Wrap32, ReferenceTime, U32At, U16At, HeaderWords;
    var time := Wrap32(Or(Wrap32(Wrap32(ReferenceTime(arrival)) * 0x100), count));
    ReferenceWord(ReferenceTime(arrival), count);
    HeaderWordFields(sender, media, Wrap16(pkts[0].tsn), Wrap16(|pkts|), time, rest);
  }

  /** What the reader makes of a body whose header, statuses and deltas are known. */
  lemma {:induction false} ReadParts(
      body: seq<uint8>, f: Feedback, n: nat, rest: seq<uint8>, reported: seq<Symbol>, deltaBytes: seq<uint8>)
    requires HasHeader(body, f, n, rest)
    requires ReadStatuses(rest, n) == Some((reported, deltaBytes))
    requires ReadDeltas(f.statuses, deltaBytes) == Some((f.deltas, []))
    ensures ReadBody(body) == Some(f) <==> reported == f.statuses
  {
  }

  lemma {:induction false} BodySplits(sender: uint32, media: uint32, count: uint8, pkts: seq<ExtInfo>)
    requires FirstArrival(pkts).Some? && pkts != []
    ensures Body(sender, media, count, pkts) ==
            HeaderBytes(sender, media, count, pkts) + (ChunkBytes(Chunks(Statuses(pkts))) + DeltaBytes(pkts))
  {
  }

  /**
   Decoding the packet built for a batch yields its base number, count, reference time,
   the status of every number and every delta as written, exactly when the final flush
   lost no status.
   */
  lemma {:induction false} FeedbackRoundTrip(sender: uint32, media: uint32, count: uint8, pkts: seq<ExtInfo>)
    requires FirstArrival(pkts).Some? && 0 < |pkts| < 0x1_0000
    requires RunsFit(Chunks(Statuses(pkts)))
    requires |Body(sender, media, count, pkts)| + 7 < 0x4_0000
    ensures ReadFeedback(FeedbackBytes(sender, media, count, pkts)) == Some(Expected(sender, media, count, pkts))
            <==> LeftoverIntact(Pack(Statuses(pkts)))
  {
    var statuses := Statuses(pkts);
    FrameRoundTrip(Body(sender, media, count, pkts));
    BodySplits(sender, media, count, pkts);
    StatusesReceived(pkts);
    ChunksRoundTrip(statuses, DeltaBytes(pkts));
    DeltasRoundTrip(pkts);
    var rest := ChunkBytes(Chunks(statuses)) + DeltaBytes(pkts);
    var f := Expected(sender, media, count, pkts);
    HeaderFields(sender, media, count, pkts, FirstArrival(pkts).value, f, rest);
    ReadParts(Body(sender, media, count, pkts), f, |pkts|, rest,
              Reported(statuses), DeltaBytes(pkts));
  }
}
