/**
 The recording side of the feedback builder as a value: what a run of packets records,
 when a feedback is due, and what the run's feedbacks report.
 */
module TwccRecord {
  import opened Words
  import opened TwccDeltas
  import opened TwccBatch

  const REPORT_DELTA := 100_000_000
  const REPORT_DELTA_AFTER_MARK := 500_000_000

  datatype Recorder = Recorder(
    extInfo: seq<ExtInfo>,
    lastReport: int,
    cycles: uint32,
    lastExtSN: uint32,
    lastSn: uint16)

  /** A packet's transport-wide number, its arrival in nanoseconds, and its marker bit. */
  datatype Packet = Packet(sn: uint16, time: int, marker: bool)

  /** A responder made at time now counts its first report from a tenth of a second later. */
  function Opened(now: int): Recorder { Recorder([], now + 100_000_000, 0, 0, 0) }

  /** Whether recording one more packet completes a batch. */
  predicate Due(r: Recorder, media: uint32, p: Packet) {
    var delta := p.time - r.lastReport;
    || (|r.extInfo| + 1 > 20 && media != 0 && delta >= REPORT_DELTA)
    || |r.extInfo| + 1 > 100
    || (p.marker && delta >= REPORT_DELTA_AFTER_MARK)
  }

  function Recorded(r: Recorder, p: Packet): ExtInfo {
    ExtInfo(Wrap32(Or(NextCycles(r.cycles, r.lastSn, p.sn), p.sn)), TruncDiv(p.time, 1000))
  }

  /** The last number and the list that a feedback triggered by p reports. */
  function Triggered(r: Recorder, p: Packet): (uint32, seq<ExtInfo>) {
    Batch(r.lastExtSN, r.extInfo + [Recorded(r, p)])
  }

  function Pushed(r: Recorder, media: uint32, p: Packet): Recorder {
    var cycles := NextCycles(r.cycles, r.lastSn, p.sn);
    if Due(r, media, p) then Recorder([], p.time, cycles, Triggered(r, p).0, p.sn)
    else Recorder(r.extInfo + [Recorded(r, p)], r.lastReport, cycles, r.lastExtSN, p.sn)
  }

  /** The state after a run of packets from a new responder. */
  function Run(media: uint32, now: int, ps: seq<Packet>): Recorder {
    if ps == [] then Opened(now) else Pushed(Run(media, now, ps[..|ps| - 1]), media, ps[|ps| - 1])
  }

  lemma {:induction false} RunNext(media: uint32, now: int, ps: seq<Packet>, k: nat)
    requires k < |ps|
    ensures Run(media, now, ps[..k + 1]) == Pushed(Run(media, now, ps[..k]), media, ps[k])
  {
    assert ps[..k + 1][..k] == ps[..k];
  }

  /** No more than a hundred packets wait, so no feedback reports more than 101 arrivals. */
  lemma {:induction false} AtMostHundred(media: uint32, now: int, ps: seq<Packet>)
    ensures |Run(media, now, ps).extInfo| <= 100
  {
    if ps != [] {
      hide Recorded, Triggered;
      AtMostHundred(media, now, ps[..|ps| - 1]);
    }
  }

  // ---------------------------------------------------------------- true numbers

  /** The packets carry the low halves of these true numbers, near to one another and below the last cycles. */
  predicate Carries(ps: seq<Packet>, xs: seq<nat>) {
    && |ps| == |xs| && (xs != [] ==> xs[0] < 0x1_0000)
    && (forall k :: 0 <= k < |xs| ==> ps[k].sn == Wrap16(xs[k]) && xs[k] < 0xFFFF_0000)
    && forall k :: 0 < k < |xs| ==> -0x0FFF < xs[k] - xs[k - 1] < 0x0FFF
  }

  /** No packet of one cycle arrives right after one of the next. */
  predicate NoneOvertaken(xs: seq<nat>) {
    forall k :: 0 < k < |xs| ==> xs[k] / 0x1_0000 >= xs[k - 1] / 0x1_0000
  }

  /** Packet k is recorded under its true number. */
  predicate TrulyRecorded(media: uint32, now: int, ps: seq<Packet>, xs: seq<nat>, k: nat)
    requires k < |ps| == |xs|
  {
    Recorded(Run(media, now, ps[..k]), ps[k]).tsn == xs[k]
  }

  lemma {:induction false} CycleAndLow(cycles: uint32, sn: uint16, q: nat)
    requires cycles == q * 0x1_0000
    ensures Wrap32(Or(cycles, sn)) == cycles as int + sn as int
  {
    Pow2Sixteen();
    hide Or;
    OrDisjoint(q, 16, sn);
  }

  /** Packet k arrives right after a packet of the next cycle. */
  predicate Overtaken(xs: seq<nat>, k: nat)
    requires k < |xs|
  {
    k > 0 && xs[k] / 0x1_0000 < xs[k - 1] / 0x1_0000
  }

  /** How many of the first n packets are overtaken. */
  function Overtakings(xs: seq<nat>, n: nat): nat
    requires n <= |xs|
  {
    if n == 0 then 0 else Overtakings(xs, n - 1) + if Overtaken(xs, n - 1) then 1 else 0
  }

  /** The cycle counted when packet k is recorded: its own and one more for every packet overtaken so far. */
  function CountedCycle(xs: seq<nat>, k: nat): nat
    requires k < |xs|
  {
    xs[k] / 0x1_0000 + Overtakings(xs, k + 1)
  }

  /** Over any run the cycle goes up at every wrap, and at that wrap again after a packet was overtaken there. */
  lemma {:induction false} CycleCounted(media: uint32, now: int, ps: seq<Packet>, xs: seq<nat>, k: nat)
    requires Carries(ps, xs) && k < |xs|
    ensures var r := Run(media, now, ps[..k]);
            NextCycles(r.cycles, r.lastSn, ps[k].sn) == Wrap32(CountedCycle(xs, k) * 0x1_0000)
  {
    hide Run, Recorded, Triggered, Due, Wrap16, NextCycles, Wrap32;
    if k == 0 {
      FirstCycle(media, now, ps, xs);
    } else {
      CycleCounted(media, now, ps, xs, k - 1);
      RunNext(media, now, ps, k - 1);
      UnwrapStep(Run(media, now, ps[..k]).cycles, xs[k - 1], xs[k]);
      CountedStep(xs, k);
      CycleUp(CountedCycle(xs, k - 1));
    }
  }

  lemma {:induction false} FirstCycle(media: uint32, now: int, ps: seq<Packet>, xs: seq<nat>)
    requires Carries(ps, xs) && xs != []
    ensures NextCycles(Run(media, now, ps[..0]).cycles, Run(media, now, ps[..0]).lastSn, ps[0].sn) == 0
    ensures Wrap32(CountedCycle(xs, 0) * 0x1_0000) == 0
  {
    assert !Overtaken(xs, 0);
    assert Overtakings(xs, 1) == 0;
  }

  lemma {:induction false} CountedStep(xs: seq<nat>, k: nat)
    requires 0 < k < |xs| && xs[k] / 0x1_0000 <= xs[k - 1] / 0x1_0000 + 1
    requires xs[k - 1] / 0x1_0000 <= xs[k] / 0x1_0000 + 1
    ensures CountedCycle(xs, k) ==
            CountedCycle(xs, k - 1) + if xs[k] / 0x1_0000 > xs[k - 1] / 0x1_0000 then 1 else 0
  {
  }

  lemma {:induction false} CycleUp(q: nat)
    ensures Wrap32(Wrap32(q * 0x1_0000) + 0x1_0000) == Wrap32((q + 1) * 0x1_0000)
  {
  }

  lemma {:induction false} WholeCycles(q: nat, sn: uint16)
    ensures Wrap32(Or(Wrap32(q * 0x1_0000), sn)) == Wrap32(q * 0x1_0000 + sn)
  {
    hide Or;
    assert Wrap32(q * 0x1_0000) == q % 0x1_0000 * 0x1_0000;
    CycleAndLow(Wrap32(q * 0x1_0000), sn, q % 0x1_0000);
  }

  lemma {:induction false} SplitNumber(x: nat)
    ensures x == x / 0x1_0000 * 0x1_0000 + Wrap16(x)
  {
  }

  /**
   Over any run, packet k is recorded 65536 too high for every packet, itself included,
   that was overtaken at a wrap so far: no later packet is recorded truly again.
   */
  lemma {:induction false} RecordedTooHigh(media: uint32, now: int, ps: seq<Packet>, xs: seq<nat>, k: nat)
    requires Carries(ps, xs) && k < |xs|
    ensures Recorded(Run(media, now, ps[..k]), ps[k]).tsn == Wrap32(xs[k] + Overtakings(xs, k + 1) * 0x1_0000)
  {
    hide Run, Or, Wrap32, Wrap16, NextCycles;
    CycleCounted(media, now, ps, xs, k);
    WholeCycles(CountedCycle(xs, k), ps[k].sn);
    SplitNumber(xs[k]);
  }

  /** Overtakings are not taken back. */
  lemma {:induction false} OvertakingsGrow(xs: seq<nat>, j: nat, n: nat)
    requires j < n <= |xs|
    ensures Overtakings(xs, n) >= if Overtaken(xs, j) then 1 else 0
    decreases n
  {
    if j < n - 1 {
      OvertakingsGrow(xs, j, n - 1);
    }
  }

  lemma {:induction false} NoOvertakings(xs: seq<nat>, n: nat)
    requires n <= |xs| && NoneOvertaken(xs)
    ensures Overtakings(xs, n) == 0
  {
    if n > 0 {
      NoOvertakings(xs, n - 1);
    }
  }

  /**
   Over any run, every packet is recorded under its true number if and only if none is
   overtaken at a wrap, that is, arrives right after a packet of the next cycle.
   */
  lemma {:induction false} RunRecordsTrue(media: uint32, now: int, ps: seq<Packet>, xs: seq<nat>)
    requires Carries(ps, xs)
    ensures (forall k :: 0 <= k < |xs| ==> TrulyRecorded(media, now, ps, xs, k)) <==> NoneOvertaken(xs)
  {
    hide Run, Recorded;
    if NoneOvertaken(xs) {
      forall k | 0 <= k < |xs| ensures TrulyRecorded(media, now, ps, xs, k) {
        RecordedTooHigh(media, now, ps, xs, k);
        NoOvertakings(xs, k + 1);
      }
    } else {
      var k := FirstOvertaken(xs);
      RecordedTooHigh(media, now, ps, xs, k);
      assert !TrulyRecorded(media, now, ps, xs, k);
    }
  }

  lemma {:induction false} FirstOvertaken(xs: seq<nat>) returns (k: nat)
    requires !NoneOvertaken(xs)
    ensures k < |xs| && Overtakings(xs, k + 1) == 1
  {
    var n := |xs| - 1;
    if NoneOvertaken(xs[..n]) {
      k := n;
      LastNotOvertaken(xs);
      NoOvertakings(xs[..n], n);
      FrontOvertakings(xs, n, n);
    } else {
      k := FirstOvertaken(xs[..n]);
      FrontOvertakings(xs, n, k + 1);
    }
  }

  lemma {:induction false} FrontOvertakings(xs: seq<nat>, m: nat, n: nat)
    requires n <= m <= |xs|
    ensures Overtakings(xs[..m], n) == Overtakings(xs, n)
  {
    if n > 0 {
      FrontOvertakings(xs, m, n - 1);
    }
  }

  lemma {:induction false} LastNotOvertaken(xs: seq<nat>)
    requires xs != [] && NoneOvertaken(xs[..|xs| - 1])
    ensures NoneOvertaken(xs) <==> !Overtaken(xs, |xs| - 1)
  {
    var n := |xs| - 1;
    assert forall i :: 0 <= i < n ==> xs[..n][i] == xs[i];
  }

  /**
   One packet overtaken at a wrap, and every packet from it on is recorded under a false
   number, until 65536 of them have been overtaken.
   */
  lemma {:induction false} OvertakenLasts(media: uint32, now: int, ps: seq<Packet>, xs: seq<nat>, j: nat, k: nat)
    requires Carries(ps, xs) && j <= k < |xs| && Overtaken(xs, j) && Overtakings(xs, k + 1) < 0x1_0000
    ensures !TrulyRecorded(media, now, ps, xs, k)
  {
    hide Run, Recorded;
    RecordedTooHigh(media, now, ps, xs, k);
    OvertakingsGrow(xs, j, k + 1);
    NotWrappedBack(xs[k], Overtakings(xs, k + 1));
  }

  lemma {:induction false} NotWrappedBack(x: nat, n: nat)
    requires x < 0xFFFF_0000 && 0 < n < 0x1_0000
    ensures Wrap32(x + n * 0x1_0000) != x
  {
  }

  // ---------------------------------------------------------------- the feedbacks of a run

  /** The records of each feedback of a run, in the order recorded. */
  function Batches(media: uint32, now: int, ps: seq<Packet>): seq<seq<ExtInfo>> {
    if ps == [] then []
    else
      var front, p := ps[..|ps| - 1], ps[|ps| - 1];
      var r := Run(media, now, front);
      if Due(r, media, p) then Batches(media, now, front) + [r.extInfo + [Recorded(r, p)]]
      else Batches(media, now, front)
  }

  /** The lists a run's feedbacks report. */
  function Lists(media: uint32, now: int, ps: seq<Packet>): seq<seq<ExtInfo>> {
    if ps == [] then []
    else
      var front, p := ps[..|ps| - 1], ps[|ps| - 1];
      var r := Run(media, now, front);
      if Due(r, media, p) then Lists(media, now, front) + [Triggered(r, p).1] else Lists(media, now, front)
  }

  function LastOfAll(last: uint32, batches: seq<seq<ExtInfo>>): uint32
    decreases |batches|
  {
    if batches == [] then last else LastOfAll(Batch(last, batches[0]).0, batches[1..])
  }

  lemma {:induction false} FeedbacksAppend(last: uint32, batches: seq<seq<ExtInfo>>, b: seq<ExtInfo>)
    ensures LastOfAll(last, batches + [b]) == Batch(LastOfAll(last, batches), b).0
    ensures Feedbacks(last, batches + [b]) == Feedbacks(last, batches) + [Batch(LastOfAll(last, batches), b).1]
    decreases |batches|
  {
    hide Batch;
    if batches == [] {
      assert (batches + [b])[1..] == [];
    } else {
      FeedbacksAppend(Batch(last, batches[0]).0, batches[1..], b);
      assert (batches + [b])[1..] == batches[1..] + [b];
    }
  }

  lemma {:induction false} ListsAreFeedbacks(media: uint32, now: int, ps: seq<Packet>)
    ensures Lists(media, now, ps) == Feedbacks(0, Batches(media, now, ps))
    ensures Run(media, now, ps).lastExtSN == LastOfAll(0, Batches(media, now, ps))
  {
    hide Batch, Recorded, Due, NextCycles;
    if ps != [] {
      var front, p := ps[..|ps| - 1], ps[|ps| - 1];
      ListsAreFeedbacks(media, now, front);
      var r := Run(media, now, front);
      if Due(r, media, p) {
        FeedbacksAppend(0, Batches(media, now, front), r.extInfo + [Recorded(r, p)]);
      }
    }
  }

  /** All that was recorded, batch after batch, and what still waits. */
  function AllRecorded(media: uint32, now: int, ps: seq<Packet>): (r: seq<ExtInfo>)
    ensures |r| == |ps|
  {
    if ps == [] then []
    else
      var front, p := ps[..|ps| - 1], ps[|ps| - 1];
      AllRecorded(media, now, front) + [Recorded(Run(media, now, front), p)]
  }

  function Joined(batches: seq<seq<ExtInfo>>): seq<ExtInfo> {
    if batches == [] then [] else Joined(batches[..|batches| - 1]) + batches[|batches| - 1]
  }

  lemma {:induction false} BatchesPartition(media: uint32, now: int, ps: seq<Packet>)
    ensures Joined(Batches(media, now, ps)) + Run(media, now, ps).extInfo == AllRecorded(media, now, ps)
  {
    hide Batch, Recorded, Due, Triggered, NextCycles;
    if ps != [] {
      var front, p := ps[..|ps| - 1], ps[|ps| - 1];
      BatchesPartition(media, now, front);
      var r, bs := Run(media, now, front), Batches(media, now, front);
      if Due(r, media, p) {
        var b := r.extInfo + [Recorded(r, p)];
        assert (bs + [b])[..|bs|] == bs;
        assert Joined(bs) + b + [] == (Joined(bs) + r.extInfo) + [Recorded(r, p)];
      } else {
        assert Joined(bs) + (r.extInfo + [Recorded(r, p)]) == (Joined(bs) + r.extInfo) + [Recorded(r, p)];
      }
    }
  }

  lemma {:induction false} RecordedAt(media: uint32, now: int, ps: seq<Packet>, k: nat)
    requires k < |ps|
    ensures AllRecorded(media, now, ps)[k] == Recorded(Run(media, now, ps[..k]), ps[k])
  {
    hide Recorded, Run;
    if k < |ps| - 1 {
      RecordedAt(media, now, ps[..|ps| - 1], k);
      assert ps[..|ps| - 1][..k] == ps[..k];
    }
  }

  /**
   Over a whole run in which no packet is overtaken at a wrap, the feedbacks list the
   true numbers: each is contiguous and starts right after the one before, and together
   their records are the packets that arrived, in order, under their true numbers.
   */
  lemma {:induction false} RunTiles(media: uint32, now: int, ps: seq<Packet>, xs: seq<nat>)
    requires Carries(ps, xs) && NoneOvertaken(xs) && Progressing(0, Batches(media, now, ps))
    ensures var fs := Lists(media, now, ps);
            && |fs| == |Batches(media, now, ps)|
            && (forall i :: 0 <= i < |fs| ==> fs[i] != [] && Contiguous(fs[i]))
            && (forall i :: 0 < i < |fs| ==> fs[i][0].tsn == fs[i - 1][0].tsn + |fs[i - 1]|)
    ensures var all := Joined(Batches(media, now, ps)) + Run(media, now, ps).extInfo;
            |all| == |xs| && forall k :: 0 <= k < |xs| ==> all[k] == ExtInfo(xs[k], TruncDiv(ps[k].time, 1000))
  {
    hide Batches, Lists, Joined, AllRecorded, Progressing, Contiguous, NoneOvertaken, Run;
    ListsAreFeedbacks(media, now, ps);
    FeedbacksTile(0, Batches(media, now, ps));
    BatchesPartition(media, now, ps);
    RunRecordsTrue(media, now, ps, xs);
    forall k | 0 <= k < |xs| ensures AllRecorded(media, now, ps)[k] == ExtInfo(xs[k], TruncDiv(ps[k].time, 1000)) {
      RecordedAt(media, now, ps, k);
      assert TrulyRecorded(media, now, ps, xs, k);
    }
  }
}
