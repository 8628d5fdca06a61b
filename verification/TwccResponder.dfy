/**
 The feedback builder as the program runs it: one object whose fixed arrays and fields
 every packet changes in place.  Each method is tied to the values of the modules it
 imports, where the properties of those values are proved.
 */
module TwccResponder {
  import opened Words
  import opened TwccFormat
  import opened TwccPacker
  import opened TwccDeltas
  import opened TwccBatch
  import opened TwccFeedback
  import Record = TwccRecord

  const PAYLOAD_SIZE := 100
  const DELTAS_SIZE := 200

  /** The header is written with the first arrival. */
  function HeaderSize(pkts: seq<ExtInfo>): nat { if FirstArrival(pkts).Some? then 16 else 0 }

  /** The header, chunks and deltas of a batch stay inside the arrays they are written to. */
  predicate Fits(pkts: seq<ExtInfo>) {
    && HeaderSize(pkts) + 2 * |Chunks(Statuses(pkts))| <= PAYLOAD_SIZE
    && |DeltaBytes(pkts)| <= DELTAS_SIZE
  }

  /** What the loop needs to know before packet k, and that its turn takes no more room than the whole list. */
  lemma {:induction false} RoomForStep(pkts: seq<ExtInfo>, k: nat)
    requires k < |pkts|
    ensures var all := Statuses(pkts);
            && Invariant(Pack(all[..k]), all[..k])
            && all[k] == StatusOf(pkts[..k], pkts[k]) && all[k] < WITHOUT_DELTA
            && Pack(all[..k + 1]) == Step(Pack(all[..k]), all[k])
            && |Pack(all[..k + 1]).emitted| <= |Chunks(all)|
    ensures |DeltaBytes(pkts[..k + 1])| <= |DeltaBytes(pkts)|
    ensures HeaderSize(pkts[..k + 1]) <= HeaderSize(pkts)
    ensures FirstArrival(pkts[..k]) == None ==> Pack(Statuses(pkts)[..k]).emitted == []
  {
    hide Invariant, Pack, Step, StatusOf, Chunks, DeltaBytes, Statuses;
    StatusesReceived(pkts);
    PackAt(Statuses(pkts), k);
    PrefixStatuses(pkts, k + 1);
    StatusAt(pkts, k);
    ArrivalKept(pkts, k + 1);
    if FirstArrival(pkts[..k]) == None {
      NothingEmittedYet(pkts, k);
    }
  }

  lemma {:induction false} ArrivalKept(pkts: seq<ExtInfo>, k: nat)
    requires k <= |pkts|
    ensures FirstArrival(pkts[..k]).Some? ==> FirstArrival(pkts).Some?
    decreases |pkts| - k
  {
    if k == |pkts| {
      assert pkts[..k] == pkts;
    } else {
      assert pkts[..k + 1][..k] == pkts[..k];
      ArrivalKept(pkts, k + 1);
    }
  }

  lemma {:induction false} StatusAt(pkts: seq<ExtInfo>, k: nat)
    requires k < |pkts|
    ensures Statuses(pkts)[k] == StatusOf(pkts[..k], pkts[k])
  {
    PrefixStatuses(pkts, k + 1);
    assert pkts[..k + 1] == pkts[..k] + [pkts[k]];
    DeltaBytesStep(pkts[..k], pkts[k]);
    assert Statuses(pkts)[..k + 1][k] == Statuses(pkts)[k];
  }

  lemma {:induction false} NothingEmittedYet(pkts: seq<ExtInfo>, k: nat)
    requires k <= |pkts| && FirstArrival(pkts[..k]) == None
    ensures Pack(Statuses(pkts)[..k]).emitted == []
  {
    NoArrival(pkts[..k]);
    StatusesReceived(pkts[..k]);
    PrefixStatuses(pkts, k);
    NothingEmitted(Statuses(pkts)[..k]);
  }

  lemma {:induction false} NoArrival(pkts: seq<ExtInfo>)
    requires FirstArrival(pkts) == None
    ensures forall i :: 0 <= i < |pkts| ==> pkts[i].timestamp == 0
  {
    if pkts == [] {
    } else {
      NoArrival(pkts[..|pkts| - 1]);
    }
  }

  lemma {:induction false} FirstArrivalAt(pkts: seq<ExtInfo>, k: nat)
    requires k < |pkts| && FirstArrival(pkts[..k]) == None && pkts[k].timestamp != 0
    ensures FirstArrival(pkts) == Some(pkts[k].timestamp)
    ensures LastArrival(pkts[..k]) == None
  {
    ArrivalsAgree(pkts[..k]);
    assert pkts[..k + 1] == pkts[..k] + [pkts[k]];
    DeltaBytesStep(pkts[..k], pkts[k]);
    PrefixDeltas(pkts, k + 1);
  }

  lemma {:induction false} HeaderOf(sender: uint32, media: uint32, count: uint8, pkts: seq<ExtInfo>, arrival: int)
    requires pkts != [] && FirstArrival(pkts) == Some(arrival)
    ensures HeaderBytes(sender, media, count, pkts) ==
            HeaderWords(sender, media, Wrap16(pkts[0].tsn), Wrap16(|pkts|),
                        Wrap32(Or(Wrap32(Wrap32(ReferenceTime(arrival)) * 0x100), count)))
  {
  }

  /** The feedback counter moves on with every header. */
  function NextCount(count: uint8, pkts: seq<ExtInfo>): uint8 {
    if FirstArrival(pkts).Some? then Wrap8(count + 1) else count
  }

  class Responder {
    var extInfo: seq<ExtInfo>
    var lastReport: int
    var cycles: uint32
    var lastExtSN: uint32
    var lastSn: uint16
    var pktCtn: uint8

    const sSSRC: uint32
    const mSSRC: uint32

    var len: nat
    var deltaLen: nat
    const payload: array<uint8>
    const deltas: array<uint8>
    var chunk: uint16

    ghost predicate Shaped()
      reads this
    {
      payload.Length == PAYLOAD_SIZE && deltas.Length == DELTAS_SIZE && payload != deltas
      && len <= PAYLOAD_SIZE && deltaLen <= DELTAS_SIZE
    }

    /** What is recorded, as a value. */
    ghost function Value(): Record.Recorder
      reads this
    {
      Record.Recorder(extInfo, lastReport, cycles, lastExtSN, lastSn)
    }

    /** Between calls nothing is half written. */
    ghost predicate Valid()
      reads this
    {
      Shaped() && len == 0 && deltaLen == 0 && chunk == 0
    }

    ghost function Head(): seq<uint8>
      requires Shaped()
      reads this, payload
    {
      payload[..len]
    }

    ghost function Tail(): seq<uint8>
      requires Shaped()
      reads this, deltas
    {
      deltas[..deltaLen]
    }

    constructor (sender: uint32, media: uint32, now: int)
      ensures Valid() && fresh(payload) && fresh(deltas)
      ensures Value() == Record.Opened(now) && pktCtn == 0
      ensures sSSRC == sender && mSSRC == media
    {
      extInfo := [];
      sSSRC, mSSRC := sender, media;
      lastReport := now + 100_000_000;
      cycles, lastExtSN, lastSn, pktCtn := 0, 0, 0, 0;
      len, deltaLen, chunk := 0, 0, 0;
      payload := new uint8[PAYLOAD_SIZE];
      deltas := new uint8[DELTAS_SIZE];
    }

    // -------------------------------------------------------------- writing fields

    // An index past the end of an array is a panic.  It is the result ok being false:
    // nothing after it is done, and nothing is promised of the fields.

    method WriteHeader(nSN: uint16, packetCount: uint16, refTime: uint32)
      requires Shaped()
      modifies this`len, payload
      ensures Shaped() && len == 16
      ensures Head() == HeaderWords(sSSRC, mSSRC, nSN, packetCount, Wrap32(Or(Wrap32(refTime * 0x100), pktCtn)))
    {
      PutUint32(payload, 0, sSSRC);
      PutUint32(payload, 4, mSSRC);
      PutUint16(payload, 8, nSN);
      PutUint16(payload, 10, packetCount);
      PutUint32(payload, 12, Wrap32(Or(Wrap32(refTime * 0x100), pktCtn)));
      len := 16;
    }

    /** Two more bytes of chunks. */
    method WriteWord(w: uint16) returns (ok: bool)
      requires Shaped()
      modifies this`len, payload
      ensures ok <==> old(len) + 2 <= PAYLOAD_SIZE
      ensures ok ==> Shaped() && len == old(len) + 2 && Head() == old(Head()) + U16Bytes(w)
    {
      if len + 2 > payload.Length {
        return false;
      }
      PutUint16(payload, len, w);
      len := len + 2;
      return true;
    }

    method WriteRunLengthChunk(symbol: Symbol, runLength: nat) returns (ok: bool)
      requires Shaped()
      modifies this`len, payload
      ensures ok <==> old(len) + 2 <= PAYLOAD_SIZE
      ensures ok ==> Shaped() && len == old(len) + 2
                     && Head() == old(Head()) + U16Bytes(ChunkWord(RunLength(symbol, runLength)))
    {
      ok := WriteWord(Wrap16(Or(Wrap16(symbol * 0x2000), Wrap16(runLength))));
    }

    /** Adds one symbol to the status vector word under construction. */
    method CreateStatusSymbolChunk(symbolSize: uint16, symbol: Symbol, i: nat)
      requires symbolSize <= 1
      modifies this`chunk
      ensures chunk == SetNBitsOfUint16(old(chunk), symbolSize + 1, (symbolSize + 1) * i + 2, symbol)
    {
      var numOfBits: nat := symbolSize + 1;
      chunk := SetNBitsOfUint16(chunk, numOfBits, numOfBits * i + 2, symbol);
    }

    method WriteStatusSymbolChunk(symbolSize: uint16, ghost s: seq<Symbol>) returns (ok: bool)
      requires Shaped() && symbolSize <= 1
      requires |s| <= Capacity(symbolSize == 1) && Below(s, Base(symbolSize == 1))
      requires chunk == PartialVector(symbolSize == 1, s)
      modifies this`len, this`chunk, payload
      ensures ok <==> old(len) + 2 <= PAYLOAD_SIZE
      ensures ok ==> Shaped() && len == old(len) + 2 && chunk == 0
                     && Head() == old(Head()) + U16Bytes(ChunkWord(StatusVector(symbolSize == 1, s)))
    {
      hide SetNBitsOfUint16, ChunkWord, PartialVector, Below, Or;
      FinishVector(symbolSize == 1, s);
      chunk := SetNBitsOfUint16(chunk, 1, 0, 1);
      chunk := SetNBitsOfUint16(chunk, 1, 1, symbolSize);
      ok := WriteWord(chunk);
      chunk := 0;
    }

    method WriteDelta(deltaType: Symbol, delta: uint16) returns (ok: bool)
      requires Shaped()
      modifies this`deltaLen, deltas
      ensures ok <==> old(deltaLen) + (if deltaType == SMALL_DELTA then 1 else 2) <= DELTAS_SIZE
      ensures ok ==>
                && Shaped()
                && Tail() == old(Tail()) + if deltaType == SMALL_DELTA then [delta % 0x100] else U16Bytes(delta)
    {
      if deltaType == SMALL_DELTA {
        if deltaLen >= deltas.Length {
          return false;
        }
        deltas[deltaLen] := Wrap8(delta);
        deltaLen := deltaLen + 1;
        return true;
      }
      if deltaLen + 2 > deltas.Length {
        return false;
      }
      PutUint16(deltas, deltaLen, delta);
      deltaLen := deltaLen + 2;
      return true;
    }

    // -------------------------------------------------------------- filling chunks

    /** Pops the front of the queue into the word under construction. */
    method PopIntoChunk(symbolSize: uint16, queue: seq<Symbol>, i: nat, ghost s: seq<Symbol>)
        returns (rest: seq<Symbol>)
      requires symbolSize <= 1 && i < |s| && queue != [] && queue[0] == s[i]
      requires |s| <= Capacity(symbolSize == 1) && Below(s, Base(symbolSize == 1))
      requires chunk == PartialVector(symbolSize == 1, s[..i])
      modifies this`chunk
      ensures rest == queue[1..] && chunk == PartialVector(symbolSize == 1, s[..i + 1])
    {
      assert s[..i + 1] == s[..i] + [s[i]];
      SetNextSymbol(symbolSize == 1, s[..i], s[i]);
      CreateStatusSymbolChunk(symbolSize, queue[0], i);
      rest := queue[1..];
    }

    /** Moves the first n statuses of the queue into one status vector chunk. */
    method FillChunk(symbolSize: uint16, queue: seq<Symbol>, n: nat) returns (rest: seq<Symbol>, ok: bool)
      requires Shaped() && chunk == 0 && symbolSize <= 1
      requires n <= |queue| && n <= Capacity(symbolSize == 1) && Below(queue[..n], Base(symbolSize == 1))
      modifies this`len, this`chunk, payload
      ensures ok <==> old(len) + 2 <= PAYLOAD_SIZE
      ensures ok ==> Shaped() && len == old(len) + 2 && chunk == 0 && rest == queue[n..]
                     && Head() == old(Head()) + U16Bytes(ChunkWord(StatusVector(symbolSize == 1, queue[..n])))
    {
      rest := queue;
      for i := 0 to n
        invariant rest == queue[i..]
        invariant chunk == PartialVector(symbolSize == 1, queue[..n][..i])
        invariant len == old(len) && payload[..] == old(payload[..])
      {
        rest := PopIntoChunk(symbolSize, rest, i, queue[..n]);
      }
      assert queue[..n][..n] == queue[..n];
      ok := WriteStatusSymbolChunk(symbolSize, queue[..n]);
    }

    /**
     Writes what is left of a mixed queue.  The loop's index grows while the queue it is
     compared with shrinks, so the two meet halfway.
     */
    method FlushChunk(symbolSize: uint16, queue: seq<Symbol>) returns (ok: bool)
      requires Shaped() && chunk == 0 && symbolSize <= 1
      requires |queue| <= Capacity(symbolSize == 1) && Below(queue, Base(symbolSize == 1))
      modifies this`len, this`chunk, payload
      ensures ok <==> old(len) + 2 <= PAYLOAD_SIZE
      ensures ok ==>
                && Shaped() && len == old(len) + 2 && chunk == 0
                && Head() == old(Head())
                             + U16Bytes(ChunkWord(StatusVector(symbolSize == 1, queue[..(|queue| + 1) / 2])))
    {
      hide ChunkWord, Below, PartialVector, SetNBitsOfUint16, U16Bytes;
      EmptyVector(symbolSize == 1);
      var rest, i := queue, 0;
      assert queue[..0] == [];
      while i < |rest|
        invariant i <= (|queue| + 1) / 2 && rest == queue[i..]
        invariant chunk == PartialVector(symbolSize == 1, queue[..i])
        invariant len == old(len) && payload[..] == old(payload[..])
      {
        rest := PopIntoChunk(symbolSize, rest, i, queue);
        i := i + 1;
      }
      FrontBelowBase(queue, i, Base(symbolSize == 1));
      ok := WriteStatusSymbolChunk(symbolSize, queue[..i]);
    }

    // -------------------------------------------------------------- the main loop

    /** The rest of the queue after a two-bit chunk is summarised again. */
    method Resummarise(queue: seq<Symbol>) returns (same: bool, lastStatus: Symbol, maxStatus: Symbol)
      requires Received(queue)
      ensures same == Uniform(queue) && lastStatus == LastOf(queue) && maxStatus == MaxOf(queue)
    {
      same, lastStatus, maxStatus := true, WITHOUT_DELTA, NOT_RECEIVED;
      for i := 0 to |queue|
        invariant same == Uniform(queue[..i])
        invariant lastStatus == LastOf(queue[..i]) && maxStatus == MaxOf(queue[..i])
      {
        var status := queue[i];
        ghost var before, after := queue[..i], queue[..i + 1];
        assert after == before + [status];
        UniformSnoc(before, status);
        if status > maxStatus {
          maxStatus := status;
        }
        if same && lastStatus != WITHOUT_DELTA && status != lastStatus {
          same := false;
        }
        lastStatus := status;
      }
      assert queue[..|queue|] == queue;
    }

    /** The chunks written so far follow the header h. */
    ghost predicate Wrote(h: seq<uint8>, emitted: seq<Chunk>)
      reads this, payload
    {
      Shaped() && len == |h| + 2 * |emitted| && Head() == h + ChunkBytes(emitted)
    }

    /** One more chunk word keeps the chunk area in step with the chunks emitted. */
    lemma {:induction false} WroteAppends(h: seq<uint8>, emitted: seq<Chunk>, c: Chunk, before: seq<uint8>)
      requires Shaped() && len == |h| + 2 * |emitted| + 2
      requires before == h + ChunkBytes(emitted) && Head() == before + U16Bytes(ChunkWord(c))
      ensures Wrote(h, emitted + [c])
    {
      ChunkBytesAppend(emitted, c, []);
      assert ChunkBytes(emitted + [c]) == ChunkBytes(emitted) + U16Bytes(ChunkWord(c));
    }

    /** A status that differs from a uniform queue writes it out if it is long, or marks it mixed. */
    method CloseRunChunk(ghost h: seq<uint8>, ghost p: Packer, status: Symbol,
                         queue: seq<Symbol>, same: bool, lastStatus: Symbol, maxStatus: Symbol)
        returns (queue': seq<Symbol>, same': bool, lastStatus': Symbol, maxStatus': Symbol, ok: bool)
      requires Wrote(h, p.emitted) && p == Packer(p.emitted, queue, same, lastStatus, maxStatus)
      modifies this`len, payload
      ensures ok <==> |h| + 2 * |CloseRun(p, status).emitted| <= PAYLOAD_SIZE
      ensures ok ==> Wrote(h, CloseRun(p, status).emitted)
      ensures ok ==> CloseRun(p, status) == Packer(CloseRun(p, status).emitted, queue', same', lastStatus', maxStatus')
    {
      queue', same', lastStatus', maxStatus', ok := queue, same, lastStatus, maxStatus, true;
      if same && status != lastStatus && lastStatus != WITHOUT_DELTA {
        if |queue| > 7 {
          ghost var before := Head();
          ok := WriteRunLengthChunk(lastStatus, |queue|);
          if !ok {
            return;
          }
          WroteAppends(h, p.emitted, RunLength(lastStatus, |queue|), before);
          queue', lastStatus', maxStatus', same' := [], WITHOUT_DELTA, NOT_RECEIVED, true;
        } else {
          same' := false;
        }
      }
    }

    /** A mixed queue that is long enough fills a status vector chunk. */
    method FillVectorChunk(ghost h: seq<uint8>, ghost p: Packer, ghost statuses: seq<Symbol>,
                           queue: seq<Symbol>, same: bool, lastStatus: Symbol, maxStatus: Symbol)
        returns (queue': seq<Symbol>, same': bool, lastStatus': Symbol, maxStatus': Symbol, ok: bool)
      requires Wrote(h, p.emitted) && p == Packer(p.emitted, queue, same, lastStatus, maxStatus)
      requires Midway(p, statuses) && chunk == 0
      modifies this`len, this`chunk, payload
      ensures ok <==> |h| + 2 * |FillVector(p).emitted| <= PAYLOAD_SIZE
      ensures ok ==> Wrote(h, FillVector(p).emitted) && chunk == 0
      ensures ok ==> FillVector(p) == Packer(FillVector(p).emitted, queue', same', lastStatus', maxStatus')
    {
      queue', same', lastStatus', maxStatus', ok := queue, same, lastStatus, maxStatus, true;
      MaxIsMax(queue);
      ghost var before := Head();
      if !same && maxStatus == LARGE_DELTA && |queue| > 6 {
        queue', ok := FillChunk(1, queue, 7);
        if !ok {
          return;
        }
        WroteAppends(h, p.emitted, StatusVector(true, queue[..7]), before);
        same', lastStatus', maxStatus' := Resummarise(queue');
      } else if !same && |queue| > 13 {
        queue', ok := FillChunk(0, queue, 14);
        if !ok {
          return;
        }
        WroteAppends(h, p.emitted, StatusVector(false, queue[..14]), before);
        lastStatus', maxStatus', same' := WITHOUT_DELTA, NOT_RECEIVED, true;
      }
    }

    /** One turn of the main loop, once the packet's status is known. */
    method PackStatus(ghost h: seq<uint8>, ghost p: Packer, ghost statuses: seq<Symbol>, status: Symbol,
                      queue: seq<Symbol>, same: bool, lastStatus: Symbol, maxStatus: Symbol)
        returns (queue': seq<Symbol>, same': bool, lastStatus': Symbol, maxStatus': Symbol, ok: bool)
      requires Wrote(h, p.emitted) && p == Packer(p.emitted, queue, same, lastStatus, maxStatus)
      requires Invariant(p, statuses) && status < WITHOUT_DELTA && chunk == 0
      modifies this`len, this`chunk, payload
      ensures ok <==> |h| + 2 * |Step(p, status).emitted| <= PAYLOAD_SIZE
      ensures ok ==> Wrote(h, Step(p, status).emitted) && chunk == 0
      ensures ok ==> Step(p, status) == Packer(Step(p, status).emitted, queue', same', lastStatus', maxStatus')
    {
      queue', same', lastStatus', maxStatus', ok := CloseRunChunk(h, p, status, queue, same, lastStatus, maxStatus);
      if !ok {
        return;
      }
      queue' := queue' + [status];
      if status > maxStatus' {
        maxStatus' := status;
      }
      lastStatus' := status;
      AppendKeeps(p, statuses, status);
      queue', same', lastStatus', maxStatus', ok :=
        FillVectorChunk(h, Append(CloseRun(p, status), status), statuses + [status], queue', same', lastStatus', maxStatus');
    }

    /** The chunk for the statuses left at the end. */
    method FlushLeftover(ghost h: seq<uint8>, ghost p: Packer, ghost statuses: seq<Symbol>,
                         queue: seq<Symbol>, same: bool, lastStatus: Symbol, maxStatus: Symbol)
        returns (ok: bool)
      requires Wrote(h, p.emitted) && p == Packer(p.emitted, queue, same, lastStatus, maxStatus)
      requires Invariant(p, statuses) && chunk == 0
      modifies this`len, this`chunk, payload
      ensures ok <==> |h| + 2 * |p.emitted + Leftover(p)| <= PAYLOAD_SIZE
      ensures ok ==> Wrote(h, p.emitted + Leftover(p)) && chunk == 0
    {
      ok := true;
      MaxIsMax(queue);
      ghost var before := Head();
      if |queue| > 0 {
        if same {
          ok := WriteRunLengthChunk(lastStatus, |queue|);
        } else if maxStatus == LARGE_DELTA {
          ok := FlushChunk(1, queue);
        } else {
          ok := FlushChunk(0, queue);
        }
        if !ok {
          return;
        }
        WroteAppends(h, p.emitted, Leftover(p)[0], before);
      } else {
        assert p.emitted + Leftover(p) == p.emitted;
      }
    }

    /** The delta of a received packet, written in the form its size calls for. */
    method WritePacketDelta(ghost before: seq<ExtInfo>, stat: ExtInfo, timestamp: int) returns (status: Symbol, ok: bool)
      requires Shaped() && stat.timestamp != 0
      requires timestamp == BaseTime(before, stat.timestamp)
      modifies this`deltaLen, deltas
      ensures ok <==> old(deltaLen) + |DeltaField(Delta(before, stat.timestamp))| <= DELTAS_SIZE
      ensures status == StatusOf(before, stat)
      ensures ok ==> Shaped() && Tail() == old(Tail()) + DeltaField(Delta(before, stat.timestamp))
    {
      var delta := TruncDiv(stat.timestamp - timestamp, 250);
      if delta < 0 || delta > 255 {
        status := LARGE_DELTA;
        var rDelta := ToInt16(delta);
        if rDelta != delta {
          if rDelta > 0 {
            rDelta := 0x7FFF;
          } else {
            rDelta := -0x8000;
          }
        }
        ok := WriteDelta(status, Wrap16(rDelta));
      } else {
        status := SMALL_DELTA;
        ok := WriteDelta(status, Wrap16(delta));
      }
    }

    /** One record per number between two received ones. */
    method FillMissing(last: uint32, tsn: uint32, reported: seq<ExtInfo>) returns (tccPkts: seq<ExtInfo>)
      ensures tccPkts == reported + Missing(last, tsn)
    {
      tccPkts := reported;
      var from: int := Wrap32(last + 1);
      var j := from;
      while j < tsn
        invariant from <= j && (j <= tsn || j == from)
        invariant tccPkts == reported + Missing(last, tsn)[..j - from]
      {
        tccPkts := tccPkts + [ExtInfo(j, 0)];
        j := j + 1;
      }
    }

    /** Reports one recorded number, after the gap before it. */
    method ReportNumber(x: ExtInfo, reported: seq<ExtInfo>) returns (tccPkts: seq<ExtInfo>)
      modifies this`lastExtSN
      ensures (lastExtSN, tccPkts) == Extend(old(lastExtSN), reported, x)
    {
      tccPkts := reported;
      if x.tsn < lastExtSN {
        return;
      }
      if lastExtSN != 0 {
        tccPkts := FillMissing(lastExtSN, x.tsn, tccPkts);
      }
      lastExtSN := x.tsn;
      tccPkts := tccPkts + [x];
      assert reported + [] + [x] == reported + [x];
    }

    /** Sorts what was recorded, skips what was reported before and fills the gaps. */
    method CollectPackets() returns (tccPkts: seq<ExtInfo>)
      modifies this`extInfo, this`lastExtSN
      ensures lastExtSN == Batch(old(lastExtSN), old(extInfo)).0
      ensures tccPkts == Batch(old(lastExtSN), old(extInfo)).1
      ensures extInfo == []
    {
      extInfo := SortByTsn(extInfo);
      tccPkts := [];
      for k := 0 to |extInfo|
        invariant extInfo == SortByTsn(old(extInfo))
        invariant (lastExtSN, tccPkts) == FillGaps(old(lastExtSN), extInfo[..k])
      {
        FillGapsStep(old(lastExtSN), extInfo, k);
        tccPkts := ReportNumber(extInfo[k], tccPkts);
      }
      assert extInfo[..|extInfo|] == extInfo;
      extInfo := [];
    }

    /** The header, once the first arrival has been seen. */
    ghost function HeaderOnce(seen: bool, count: uint8, pkts: seq<ExtInfo>): seq<uint8>
    {
      if seen && pkts != [] then HeaderBytes(sSSRC, mSSRC, count, pkts) else []
    }

    /** After k packets: arrivals seen, header, deltas and counter as they should be. */
    ghost predicate Arrived(pkts: seq<ExtInfo>, k: nat, count: uint8, firstRecv: bool, timestamp: int)
      requires k <= |pkts|
      reads this, deltas
    {
      && Shaped() && chunk == 0
      && firstRecv == FirstArrival(pkts[..k]).Some?
      && (firstRecv ==> LastArrival(pkts[..k]) == Some(timestamp))
      && Tail() == DeltaBytes(pkts[..k])
      && pktCtn == if firstRecv then Wrap8(count + 1) else count
    }

    /** The first arrival fixes the reference time and writes the header. */
    method StartFeedback(ghost k: nat, tccPkts: seq<ExtInfo>, stat: ExtInfo) returns (timestamp: int)
      requires Shaped() && len == 0 && k < |tccPkts| && stat == tccPkts[k] && stat.timestamp != 0
      requires FirstArrival(tccPkts[..k]) == None
      modifies this`len, this`pktCtn, payload
      ensures Shaped() && Wrote(HeaderOnce(true, old(pktCtn), tccPkts), [])
      ensures timestamp == BaseTime(tccPkts[..k], stat.timestamp)
      ensures pktCtn == Wrap8(old(pktCtn) + 1)
    {
      FirstArrivalAt(tccPkts, k);
      HeaderOf(sSSRC, mSSRC, pktCtn, tccPkts, stat.timestamp);
      var refTime := TruncDiv(stat.timestamp, 64_000);
      timestamp := refTime * 64_000;
      WriteHeader(Wrap16(tccPkts[0].tsn), Wrap16(|tccPkts|), Wrap32(refTime));
      pktCtn := Wrap8(pktCtn + 1);
    }

    /** One packet's arrival: header if it is the first, delta, status. */
    method TakePacket(ghost p: Packer, ghost k: nat, ghost count: uint8, tccPkts: seq<ExtInfo>, stat: ExtInfo,
                      firstRecv: bool, timestamp: int)
        returns (status: Symbol, firstRecv': bool, timestamp': int, ok: bool)
      requires k < |tccPkts| && stat == tccPkts[k]
      requires Arrived(tccPkts, k, count, firstRecv, timestamp)
      requires Wrote(HeaderOnce(firstRecv, count, tccPkts), p.emitted)
      requires !firstRecv ==> p.emitted == []
      modifies this`len, this`deltaLen, this`pktCtn, payload, deltas
      ensures ok <==> |DeltaBytes(tccPkts[..k + 1])| <= DELTAS_SIZE
      ensures status == StatusOf(tccPkts[..k], stat)
      ensures ok ==> Arrived(tccPkts, k + 1, count, firstRecv', timestamp')
      ensures ok ==> Wrote(HeaderOnce(firstRecv', count, tccPkts), p.emitted)
    {
      hide DeltaBytes, DeltaField, HeaderBytes, ChunkBytes, Statuses;
      status, firstRecv', timestamp', ok := NOT_RECEIVED, firstRecv, timestamp, true;
      assert tccPkts[..k + 1] == tccPkts[..k] + [stat];
      DeltaBytesStep(tccPkts[..k], stat);
      ArrivalsAgree(tccPkts[..k]);
      if stat.timestamp != 0 {
        if !firstRecv {
          firstRecv' := true;
          timestamp' := StartFeedback(k, tccPkts, stat);
        }
        status, ok := WritePacketDelta(tccPkts[..k], stat, timestamp');
        timestamp' := stat.timestamp;
      }
    }

    /** One turn of the main loop. */
    method WritePacket(ghost k: nat, ghost count: uint8, ghost statuses: seq<Symbol>, ghost p: Packer,
                       tccPkts: seq<ExtInfo>, stat: ExtInfo, firstRecv: bool, timestamp: int,
                       queue: seq<Symbol>, same: bool, lastStatus: Symbol, maxStatus: Symbol)
        returns (ghost q: Packer, firstRecv': bool, timestamp': int,
                 queue': seq<Symbol>, same': bool, lastStatus': Symbol, maxStatus': Symbol, ok: bool)
      requires k < |tccPkts| && stat == tccPkts[k]
      requires Arrived(tccPkts, k, count, firstRecv, timestamp)
      requires Invariant(p, statuses) && StatusOf(tccPkts[..k], stat) < WITHOUT_DELTA
      requires p == Packer(p.emitted, queue, same, lastStatus, maxStatus)
      requires Wrote(HeaderOnce(firstRecv, count, tccPkts), p.emitted) && (!firstRecv ==> p.emitted == [])
      modifies this`len, this`deltaLen, this`chunk, this`pktCtn, payload, deltas
      ensures ok <==> |DeltaBytes(tccPkts[..k + 1])| <= DELTAS_SIZE
                      && HeaderSize(tccPkts[..k + 1]) + 2 * |Step(p, StatusOf(tccPkts[..k], stat)).emitted| <= PAYLOAD_SIZE
      ensures q == Step(p, StatusOf(tccPkts[..k], stat))
      ensures ok ==> Arrived(tccPkts, k + 1, count, firstRecv', timestamp')
      ensures ok ==> q == Packer(q.emitted, queue', same', lastStatus', maxStatus')
      ensures ok ==> Wrote(HeaderOnce(firstRecv', count, tccPkts), q.emitted)
    {
      hide DeltaBytes, Step, StatusOf, HeaderBytes, ChunkBytes, Invariant, FirstArrival, LastArrival;
      var status;
      queue', same', lastStatus', maxStatus' := queue, same, lastStatus, maxStatus;
      status, firstRecv', timestamp', ok := TakePacket(p, k, count, tccPkts, stat, firstRecv, timestamp);
      q := Step(p, status);
      if ok {
        HeaderLength(firstRecv', count, tccPkts);
        queue', same', lastStatus', maxStatus', ok :=
          PackStatus(HeaderOnce(firstRecv', count, tccPkts), p, statuses, status, queue, same, lastStatus, maxStatus);
      }
    }

    lemma {:induction false} HeaderNever(seen: bool, count: uint8, pkts: seq<ExtInfo>)
      requires seen == FirstArrival(pkts).Some?
      ensures |HeaderOnce(seen, count, pkts)| == HeaderSize(pkts)
    {
    }

    lemma {:induction false} HeaderLength(seen: bool, count: uint8, pkts: seq<ExtInfo>)
      requires pkts != []
      ensures |HeaderOnce(seen, count, pkts)| == if seen then 16 else 0
    {
    }

    /** The main loop: statuses into chunks, arrivals into deltas, the header with the first arrival. */
    method WriteStatuses(tccPkts: seq<ExtInfo>) returns (ok: bool)
      requires Valid()
      modifies this`len, this`deltaLen, this`chunk, this`pktCtn, payload, deltas
      ensures ok <==> Fits(tccPkts)
      ensures ok ==>
                && Shaped() && chunk == 0
                && Head() + Tail() == Body(sSSRC, mSSRC, old(pktCtn), tccPkts)
                && pktCtn == NextCount(old(pktCtn), tccPkts)
    {
      hide Step, Pack, Statuses, StatusOf, DeltaBytes, FirstArrival, LastArrival, Body, Leftover, Chunks, Invariant,
           ChunkBytes, HeaderBytes;
      ok := true;
      NothingYet(tccPkts);
      var firstRecv, timestamp := false, 0;
      var queue: seq<Symbol>, same, lastStatus, maxStatus := [], true, WITHOUT_DELTA, NOT_RECEIVED;
      ghost var all, p := Statuses(tccPkts), INITIAL;
      for k := 0 to |tccPkts|
        invariant Arrived(tccPkts, k, old(pktCtn), firstRecv, timestamp)
        invariant p == Pack(all[..k]) && p == Packer(p.emitted, queue, same, lastStatus, maxStatus)
        invariant Wrote(HeaderOnce(firstRecv, old(pktCtn), tccPkts), p.emitted)
      {
        RoomForStep(tccPkts, k);
        p, firstRecv, timestamp, queue, same, lastStatus, maxStatus, ok :=
          WritePacket(k, old(pktCtn), all[..k], p, tccPkts, tccPkts[k], firstRecv, timestamp,
                      queue, same, lastStatus, maxStatus);
        if !ok {
          return;
        }
      }
      AllPackets(tccPkts);
      HeaderNever(firstRecv, old(pktCtn), tccPkts);
      ok := FlushLeftover(HeaderOnce(firstRecv, old(pktCtn), tccPkts), p, all, queue, same, lastStatus, maxStatus);
      if !ok {
        return;
      }
      BodyParts(HeaderOnce(firstRecv, old(pktCtn), tccPkts), sSSRC, mSSRC, old(pktCtn), tccPkts);
    }

    /** The packet length, rounded up to whole words. */
    method PadLength(n: nat) returns (pLen: nat, padSize: nat)
      ensures padSize == PadSize(n) && pLen == n + 4 + padSize
    {
      pLen, padSize := n + 4, 0;
      while pLen % 4 != 0
        invariant padSize <= PadSize(n) && pLen == n + 4 + padSize
        decreases PadSize(n) - padSize
      {
        padSize := padSize + 1;
        pLen := pLen + 1;
      }
    }

    /** Common header, chunks, deltas and padding, copied into one packet; the arrays are empty again. */
    method AssemblePacket() returns (pkt: seq<uint8>)
      requires Shaped()
      modifies this`len, this`deltaLen
      ensures pkt == Framed(old(Head()) + old(Tail()))
      ensures Shaped() && len == 0 && deltaLen == 0
    {
      hide U16Bytes, Repeat;
      var pLen, padSize := PadLength(len + deltaLen);
      var header: seq<uint8> := [0x80 + (if padSize > 0 then 0x20 else 0) + FORMAT_TCC, TYPE_TRANSPORT_FEEDBACK];
      var body := payload[..len] + deltas[..deltaLen];
      pkt := header + U16Bytes(Wrap16(pLen / 4 - 1)) + body;
      if padSize > 0 {
        pkt := pkt + (Repeat(0, padSize - 1) + [padSize]);
      }
      deltaLen, len := 0, 0;
    }

    /** Chunks, deltas, header and framing: a list that does not fit the arrays is a panic. */
    method EncodePackets(tccPkts: seq<ExtInfo>) returns (bytes: seq<uint8>, ok: bool)
      requires Valid()
      modifies this`pktCtn, this`len, this`deltaLen, this`chunk, payload, deltas
      ensures ok <==> Fits(tccPkts)
      ensures ok ==>
                && Valid() && bytes == FeedbackBytes(sSSRC, mSSRC, old(pktCtn), tccPkts)
                && pktCtn == NextCount(old(pktCtn), tccPkts)
    {
      bytes := [];
      ok := WriteStatuses(tccPkts);
      if ok {
        bytes := AssemblePacket();
      }
    }

    /**
     One feedback packet from what was recorded: none if nothing was, a panic if it does
     not fit the arrays, else exactly the packet that the format calls for.
     */
    method BuildTransportCCPacket() returns (pkt: Option<seq<uint8>>, ok: bool)
      requires Valid()
      modifies this`extInfo, this`lastExtSN, this`pktCtn, this`len, this`deltaLen, this`chunk, payload, deltas
      ensures ok <==> old(extInfo) == [] || Fits(Batch(old(lastExtSN), old(extInfo)).1)
      ensures ok ==> Valid() && extInfo == []
      ensures old(extInfo) == [] ==> pkt == None && lastExtSN == old(lastExtSN) && pktCtn == old(pktCtn)
      ensures ok && old(extInfo) != [] ==>
                var b := Batch(old(lastExtSN), old(extInfo));
                && pkt == Some(FeedbackBytes(sSSRC, mSSRC, old(pktCtn), b.1))
                && lastExtSN == b.0
                && pktCtn == NextCount(old(pktCtn), b.1)
    {
      if |extInfo| == 0 {
        return None, true;
      }
      var tccPkts := CollectPackets();
      var bytes;
      bytes, ok := EncodePackets(tccPkts);
      pkt := Some(bytes);
    }

    /**
     Records one packet, and builds a feedback when the batch is due: the packet the format
     calls for, or a panic exactly when the batch does not fit the arrays.
     */
    method Push(sn: uint16, timeNS: int, marker: bool) returns (feedback: Option<seq<uint8>>, ok: bool)
      requires Valid()
      modifies this`extInfo, this`lastReport, this`cycles, this`lastExtSN, this`lastSn, this`pktCtn,
               this`len, this`deltaLen, this`chunk, payload, deltas
      ensures var r, p := old(Value()), Record.Packet(sn, timeNS, marker);
              && (ok <==> Record.Due(r, mSSRC, p) ==> Fits(Record.Triggered(r, p).1))
              && (ok ==>
                  && Valid() && Value() == Record.Pushed(r, mSSRC, p)
                  && feedback == (if Record.Due(r, mSSRC, p)
                                  then Some(FeedbackBytes(sSSRC, mSSRC, old(pktCtn), Record.Triggered(r, p).1))
                                  else None)
                  && pktCtn == if Record.Due(r, mSSRC, p) then NextCount(old(pktCtn), Record.Triggered(r, p).1)
                               else old(pktCtn))
    {
      hide Or, Batch, FeedbackBytes, NextCount, TruncDiv, Fits;
      ghost var r, p := Value(), Record.Packet(sn, timeNS, marker);
      if sn < 0x0FFF && lastSn > 0xF000 {
        cycles := Wrap32(cycles + 0x1_0000);
      }
      extInfo := extInfo + [ExtInfo(Wrap32(Or(cycles, sn)), TruncDiv(timeNS, 1000))];
      assert extInfo == r.extInfo + [Record.Recorded(r, p)];
      lastSn := sn;
      var delta := timeNS - lastReport;
      feedback, ok := None, true;
      if (|extInfo| > 20 && mSSRC != 0 && delta >= Record.REPORT_DELTA) || |extInfo| > 100
         || (marker && delta >= Record.REPORT_DELTA_AFTER_MARK) {
        feedback, ok := BuildTransportCCPacket();
        if !ok {
          return;
        }
        lastReport := timeNS;
      }
    }
  }

  lemma {:induction false} EmptyVector(two: bool)
    ensures PartialVector(two, []) == 0
  {
  }

  lemma {:induction false} FrontBelowBase(s: seq<Symbol>, n: nat, base: nat)
    requires n <= |s| && Below(s, base)
    ensures Below(s[..n], base)
  {
  }

  lemma {:induction false} BodyParts(h: seq<uint8>, sender: uint32, media: uint32, count: uint8, pkts: seq<ExtInfo>)
    requires h == if FirstArrival(pkts).Some? then HeaderBytes(sender, media, count, pkts) else []
    ensures Body(sender, media, count, pkts) == h + ChunkBytes(Chunks(Statuses(pkts))) + DeltaBytes(pkts)
  {
  }

  lemma {:induction false} AllPackets(pkts: seq<ExtInfo>)
    ensures pkts[..|pkts|] == pkts && Statuses(pkts)[..|pkts|] == Statuses(pkts)
    ensures var p := Pack(Statuses(pkts));
            && Invariant(p, Statuses(pkts))
            && Chunks(Statuses(pkts)) == p.emitted + Leftover(p)
  {
    StatusesReceived(pkts);
    PackInvariant(Statuses(pkts));
  }

  /** Before the first packet nothing has arrived and nothing is written. */
  lemma {:induction false} NothingYet(pkts: seq<ExtInfo>)
    ensures FirstArrival(pkts[..0]) == None && DeltaBytes(pkts[..0]) == []
    ensures Pack(Statuses(pkts)[..0]) == INITIAL && ChunkBytes([]) == []
  {
  }
}
