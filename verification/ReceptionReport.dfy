/**
 What the receive side counts and reports back: the extended highest number, the total
 and the fraction lost of RFC 3550 section 6.4.1, kept as its appendices A.1 and A.3 do.
 */
module ReceptionReport {
  import opened Words

  const PROBES := 25
  const REPORT_DELTA := 1_000_000_000

  datatype Stats = Stats(
    baseSN: uint16,
    maxSeqNo: uint16,
    cycles: uint32,
    packetCount: uint32,
    lastExpected: uint32,
    lastReceived: uint32,
    minPacketProbe: nat,
    lastReport: int)

  const IDLE := Stats(0, 0, 0, 0, 0, 0, 0, 0)

  datatype Report = Report(fractionLost: uint8, totalLost: uint32, lastSequenceNumber: uint32)

  // ---------------------------------------------------------------- one packet

  /** The newest number and its cycle: a number less than half a cycle ahead is newer. */
  function Tracked(s: Stats, sn: uint16, arrival: int): Stats {
    if s.packetCount == 0 then s.(baseSN := sn, maxSeqNo := sn, lastReport := arrival)
    else if Wrap16(sn - s.maxSeqNo) < 0x8000 then
      s.(cycles := if sn < s.maxSeqNo then Wrap32(s.cycles + 0x1_0000) else s.cycles, maxSeqNo := sn)
    else s
  }

  function Counted(s: Stats): Stats { s.(packetCount := Wrap32(s.packetCount + 1)) }

  /** The first packets that parse may still lower the base. */
  function Probed(s: Stats, sn: uint16): Stats {
    if s.minPacketProbe < PROBES
    then s.(baseSN := if sn < s.baseSN then sn else s.baseSN, minPacketProbe := s.minPacketProbe + 1)
    else s
  }

  /** The counters after one packet: one that does not parse is counted all the same. */
  function Received(s: Stats, sn: uint16, arrival: int, parsed: bool): Stats {
    var t := Counted(Tracked(s, sn, arrival));
    if parsed then Probed(t, sn) else t
  }

  // ---------------------------------------------------------------- one report

  function ExtMaxSeq(s: Stats): nat { Or(s.cycles, s.maxSeqNo) }

  function Expected(s: Stats): uint32 { Wrap32(ExtMaxSeq(s) - s.baseSN + 1) }

  function TotalLost(s: Stats): uint32 {
    if s.packetCount < Expected(s) && s.packetCount != 0 then Wrap32(Expected(s) - s.packetCount) else 0
  }

  function ExpectedInterval(s: Stats): uint32 { Wrap32(Expected(s) - s.lastExpected) }
  function ReceivedInterval(s: Stats): uint32 { Wrap32(s.packetCount - s.lastReceived) }
  function LostInterval(s: Stats): uint32 { Wrap32(ExpectedInterval(s) - ReceivedInterval(s)) }

  function Fraction(expected: uint32, lost: uint32): uint8 {
    if expected != 0 && lost > 0 then Wrap8(Wrap32(lost as int * 256) / expected) else 0
  }

  function BuildReport(s: Stats): Report {
    Report(Fraction(ExpectedInterval(s), LostInterval(s)), TotalLost(s), Wrap32(ExtMaxSeq(s)))
  }

  function Reported(s: Stats): Stats {
    s.(lastExpected := Expected(s), lastReceived := s.packetCount)
  }

  predicate Due(s: Stats, arrival: int) { arrival - s.lastReport >= REPORT_DELTA }

  /** A packet that parses also triggers the report, once a second has gone by. */
  function Calc(s: Stats, sn: uint16, arrival: int, parsed: bool): (Stats, Option<Report>) {
    var t := Received(s, sn, arrival, parsed);
    if parsed && Due(t, arrival) then (Reported(t).(lastReport := arrival), Some(BuildReport(t)))
    else (t, None)
  }

  class Buffer {
    var baseSN: uint16
    var maxSeqNo: uint16
    var cycles: uint32
    var packetCount: uint32
    var lastExpected: uint32
    var lastReceived: uint32
    var minPacketProbe: nat
    var lastReport: int

    ghost function Value(): Stats
      reads this
    {
      Stats(baseSN, maxSeqNo, cycles, packetCount, lastExpected, lastReceived, minPacketProbe, lastReport)
    }

    constructor ()
      ensures Value() == IDLE
    {
      baseSN, maxSeqNo, cycles, packetCount, lastExpected, lastReceived, minPacketProbe, lastReport := 0, 0, 0, 0, 0, 0, 0, 0;
    }

    method BuildReceptionReport() returns (rr: Report)
      modifies this`lastExpected, this`lastReceived
      ensures rr == BuildReport(old(Value())) && Value() == Reported(old(Value()))
    {
      hide Or, Wrap8, Wrap32;
      var extMaxSeq := Or(cycles, maxSeqNo);
      var expected := Wrap32(extMaxSeq - baseSN + 1);
      var lost: uint32 := 0;
      if packetCount < expected && packetCount != 0 {
        lost := Wrap32(expected - packetCount);
      }
      var expectedInterval := Wrap32(expected - lastExpected);
      lastExpected := expected;
      var receivedInterval := Wrap32(packetCount - lastReceived);
      lastReceived := packetCount;
      var lostInterval := Wrap32(expectedInterval as int - receivedInterval as int);
      var fracLost: uint8 := 0;
      if expectedInterval != 0 && lostInterval > 0 {
        fracLost := Wrap8(Wrap32(lostInterval as int * 256) / expectedInterval);
      }
      rr := Report(fracLost, lost, Wrap32(extMaxSeq));
    }

    /** The newest number and its cycle. */
    method TrackSequence(sn: uint16, arrivalTime: int)
      modifies this`baseSN, this`maxSeqNo, this`cycles, this`lastReport
      ensures Value() == Tracked(old(Value()), sn, arrivalTime)
    {
      if packetCount == 0 {
        baseSN, maxSeqNo, lastReport := sn, sn, arrivalTime;
      } else if Wrap16(sn - maxSeqNo) < 0x8000 {
        if sn < maxSeqNo {
          cycles := Wrap32(cycles + 0x1_0000);
        }
        maxSeqNo := sn;
      }
    }

    /** The first packets that parse may lower the base. */
    method Probe(sn: uint16)
      modifies this`baseSN, this`minPacketProbe
      ensures Value() == Probed(old(Value()), sn)
    {
      if minPacketProbe < PROBES {
        if sn < baseSN {
          baseSN := sn;
        }
        minPacketProbe := minPacketProbe + 1;
      }
    }

    /** One packet from the network: whether it is the newest, and the report it triggers. */
    method CalcPacket(sn: uint16, arrivalTime: int, parsed: bool) returns (head: bool, report: Option<Report>)
      modifies this
      ensures (Value(), report) == Calc(old(Value()), sn, arrivalTime, parsed)
      ensures head == (sn == Value().maxSeqNo)
    {
      hide Tracked, BuildReport, Expected, Wrap32;
      TrackSequence(sn, arrivalTime);
      packetCount := Wrap32(packetCount + 1);
      head, report := sn == maxSeqNo, None;
      if !parsed {
        return;
      }
      Probe(sn);
      if arrivalTime - lastReport >= REPORT_DELTA {
        var rr := BuildReceptionReport();
        report, lastReport := Some(rr), arrivalTime;
      }
    }
  }

  // ---------------------------------------------------------------- true numbers

  datatype Arrival = Arrival(number: int, time: int, parsed: bool)

  /** Every true number that arrived, with the lowest and the highest. */
  datatype Truth = Truth(seen: set<int>, base: int, max: int)

  /**
   The arrivals the counts are promised for: distinct, and within half a cycle of the
   highest so far.
   */
  predicate Regular(g: Truth, a: Arrival) {
    && a.number !in g.seen
    && (g.seen != {} ==> -0x8000 <= a.number - g.max < 0x8000)
    && (g.seen == {} ==> 0 <= a.number < 0x1_0000)
  }

  function Learn(g: Truth, u: int): Truth {
    if g.seen == {} then Truth({u}, u, u)
    else Truth(g.seen + {u}, if u < g.base then u else g.base, if u > g.max then u else g.max)
  }

  predicate TruthOk(g: Truth) {
    g.seen != {} ==> g.base in g.seen && g.max in g.seen && forall u :: u in g.seen ==> g.base <= u <= g.max
  }

  predicate Tied(s: Stats, g: Truth) {
    && TruthOk(g) && s.packetCount == Wrap32(|g.seen|)
    && (g.seen == {} ==> s.cycles == 0)
    && (g.seen != {} ==>
        && s.baseSN <= g.max && s.maxSeqNo == Wrap16(g.max)
        && s.cycles == Wrap32(g.max / 0x1_0000 * 0x1_0000))
  }

  /** Fewer than 2^32 packets, so that the first is told from the others. */
  predicate Countable(g: Truth) { |g.seen| < 0xffff_ffff }

  lemma {:induction false} NextCycle(max: int, u: int)
    requires 0 <= max && -0x8000 <= u - max < 0x8000
    ensures Wrap16(Wrap16(u) - Wrap16(max)) < 0x8000 <==> u >= max
    ensures u > max && Wrap16(u) < Wrap16(max) ==> u / 0x1_0000 == max / 0x1_0000 + 1
    ensures u >= max && Wrap16(u) >= Wrap16(max) ==> u / 0x1_0000 == max / 0x1_0000
  {
  }

  lemma {:induction false} CycleUp(k: int)
    ensures Wrap32(Wrap32(k * 0x1_0000) + 0x1_0000) == Wrap32((k + 1) * 0x1_0000)
  {
  }

  lemma {:induction false} TrackedTied(s: Stats, g: Truth, a: Arrival)
    requires Tied(s, g) && Countable(g) && Regular(g, a) && g.seen != {}
    ensures var t := Tracked(s, Wrap16(a.number), a.time);
            var max := if a.number > g.max then a.number else g.max;
            t == s.(maxSeqNo := Wrap16(max), cycles := Wrap32(max / 0x1_0000 * 0x1_0000))
  {
    hide Wrap16, Wrap32;
    var u, max := a.number, g.max;
    assert u != max;
    assert s.packetCount != 0 by { CountFits(|g.seen|); }
    NextCycle(max, u);
    if u > max {
      CycleUp(max / 0x1_0000);
    }
  }

  lemma {:induction false} CountFits(n: nat)
    requires 0 <= n <= 0xffff_ffff
    ensures Wrap32(n) == n
  {
  }

  /**
   Every regular arrival keeps the counters tied to the true numbers: highest, cycle and
   count are theirs, and the base is no higher than the highest.
   */
  lemma {:induction false} ReceivedTied(s: Stats, g: Truth, a: Arrival)
    requires Tied(s, g) && Countable(g) && Regular(g, a)
    ensures Tied(Received(s, Wrap16(a.number), a.time, a.parsed), Learn(g, a.number))
  {
    hide Wrap16, Wrap32;
    SmallNumber(a.number);
    if g.seen != {} {
      TrackedTied(s, g, a);
      assert |g.seen + {a.number}| == |g.seen| + 1;
      assert g.base in g.seen;
      NextCount(|g.seen|);
      CountFits(|g.seen|);
    } else {
      assert |{a.number}| == 1;
      CountFits(0);
      CountFits(1);
      FirstCycle(a.number);
    }
  }

  /** A regular arrival has the newest number exactly when its true number is above all others. */
  lemma {:induction false} NewestIsHighest(s: Stats, g: Truth, a: Arrival)
    requires Tied(s, g) && Countable(g) && Regular(g, a)
    ensures Received(s, Wrap16(a.number), a.time, a.parsed).maxSeqNo == Wrap16(a.number)
            <==> g.seen == {} || a.number > g.max
  {
    hide Wrap32;
    ReceivedTied(s, g, a);
    if g.seen != {} && a.number < g.max {
      LowsDiffer(g.max, a.number);
    }
  }

  lemma {:induction false} LowsDiffer(a: int, b: int)
    requires 0 < a - b <= 0x8000
    ensures Wrap16(a) != Wrap16(b)
  {
  }

  lemma {:induction false} SmallNumber(u: int)
    ensures 0 <= u < 0x1_0000 ==> Wrap16(u) == u
  {
  }

  lemma {:induction false} NextCount(n: nat)
    ensures Wrap32(Wrap32(n) + 1) == Wrap32(n + 1)
  {
  }

  lemma {:induction false} FirstCycle(u: int)
    requires 0 <= u < 0x1_0000
    ensures Wrap32(u / 0x1_0000 * 0x1_0000) == 0
  {
  }

  // ---------------------------------------------------------------- what a report means

  /** The extended highest number is the true highest one, in thirty-two bits. */
  lemma {:induction false} ExtMaxIsTrue(s: Stats, g: Truth)
    requires Tied(s, g) && g.seen != {}
    ensures ExtMaxSeq(s) == Wrap32(g.max)
  {
    hide Wrap16, Wrap32, Or, Pow2;
    var q := g.max / 0x1_0000;
    Pow2Sixteen();
    HighAndLow(g.max);
    OrDisjoint(q % 0x1_0000, 16, s.maxSeqNo);
  }

  lemma {:induction false} HighAndLow(max: nat)
    ensures Wrap32(max / 0x1_0000 * 0x1_0000) == max / 0x1_0000 % 0x1_0000 * 0x1_0000
    ensures Wrap32(max) == max / 0x1_0000 % 0x1_0000 * 0x1_0000 + Wrap16(max)
  {
    var q := max / 0x1_0000;
    assert max == q * 0x1_0000 + Wrap16(max);
    assert q == q / 0x1_0000 * 0x1_0000 + q % 0x1_0000;
  }

  function Span(lo: int, hi: int): (r: set<int>)
    ensures forall u :: u in r <==> lo <= u <= hi
    decreases hi - lo
  {
    if lo > hi then {} else Span(lo, hi - 1) + {hi}
  }

  function Missing(g: Truth): set<int> { Span(g.base, g.max) - g.seen }

  lemma {:induction false} SpanSize(lo: int, hi: int)
    requires lo <= hi + 1
    ensures |Span(lo, hi)| == hi + 1 - lo
    decreases hi + 1 - lo
  {
    if lo <= hi {
      SpanSize(lo, hi - 1);
    }
  }

  lemma {:induction false} MissingCount(g: Truth)
    requires TruthOk(g) && g.seen != {}
    ensures |Missing(g)| == g.max - g.base + 1 - |g.seen|
  {
    SpanSize(g.base, g.max);
    assert g.seen <= Span(g.base, g.max);
    assert Missing(g) + g.seen == Span(g.base, g.max);
  }

  /** How many values a report counts as lost: those missing, and those below the lowest number but not below the base. */
  function Shortfall(s: Stats, g: Truth): int { |Missing(g)| + g.base - s.baseSN }

  /**
   The total lost is the number of values between the lowest and the highest number that
   never arrived, if and only if the base is the lowest number, or nothing is missing and
   the base is higher.  In any case it is the shortfall, or zero if that is negative.
   */
  lemma {:induction false} TotalLostIsMissing(s: Stats, g: Truth)
    requires Tied(s, g) && g.seen != {} && |g.seen| <= 0xffff_ffff && g.max - s.baseSN < 0xffff_ffff
    ensures Expected(s) == g.max - s.baseSN + 1
    ensures Expected(s) as int - s.packetCount as int == Shortfall(s, g)
    ensures TotalLost(s) == if Shortfall(s, g) > 0 then Shortfall(s, g) else 0
    ensures TotalLost(s) == |Missing(g)| <==> s.baseSN == g.base || (Missing(g) == {} && g.base <= s.baseSN)
  {
    hide ExtMaxSeq, Span, Missing;
    ExtMaxIsTrue(s, g);
    MissingCount(g);
    assert |g.seen| > 0;
    ExpectedIs(g.max, s.baseSN);
    CountFits(|g.seen|);
  }

  lemma {:induction false} ExpectedIs(max: int, base: int)
    requires 0 <= base <= max && max - base < 0xffff_ffff
    ensures Wrap32(Wrap32(max) - base + 1) == max - base + 1
  {
  }

  /**
   The fraction is the lost share of the interval in 1/256, when no more arrived than was
   expected and fewer than 2^24 were lost, exactly when anything arrived at all: with
   nothing received it comes out as no loss.
   */
  lemma {:induction false} FractionIsShare(expected: uint32, received: uint32)
    requires 0 < expected && received <= expected && expected - received < 0x100_0000
    ensures Fraction(expected, expected - received) == (expected - received) * 256 / expected <==> received > 0
    ensures received == 0 ==> Fraction(expected, expected - received) == 0
  {
    hide Wrap8, Wrap32;
    var lost: int := expected - received;
    Shifted(lost);
    ShareFits(lost, expected);
  }

  lemma {:induction false} Shifted(lost: nat)
    requires lost < 0x100_0000
    ensures Wrap32(lost * 256) == lost * 256
  {
  }

  lemma {:induction false} ShareFits(lost: nat, expected: nat)
    requires 0 < expected && lost <= expected
    ensures lost < expected ==> Wrap8(lost * 256 / expected) == lost * 256 / expected
    ensures lost == expected ==> lost * 256 / expected == 256 && Wrap8(256) == 0
  {
    var f := lost * 256 / expected;
    assert lost * 256 == expected * f + lost * 256 % expected;
    if lost == expected {
      Exactly(expected, f, 256, lost * 256 % expected);
    } else if f >= 256 {
      MulGrows(expected, f, 256);
      assert false;
    }
  }

  lemma {:induction false} Exactly(e: nat, f: int, n: int, r: int)
    requires e > 0 && e * n == e * f + r && 0 <= r < e
    ensures f == n
  {
    if f > n {
      MulGrows(e, f, n + 1);
    } else if f < n {
      MulGrows(e, n, f + 1);
    }
  }

  lemma {:induction false} MulGrows(e: nat, f: int, n: int)
    requires f >= n
    ensures e * f >= e * n
  {
    assert e * f == e * n + e * (f - n);
  }

  /**
   When more arrived than was expected, by less than 2^24, the fraction is not zero but
   the share that 2^24 less the surplus leaves over the expected number: it reads zero
   exactly when 256 times that remainder is below the expected number.
   */
  lemma {:induction false} SurplusShare(expected: uint32, received: uint32)
    requires 0 < expected < received && received - expected < 0x100_0000
    ensures var e: int, left := expected, (0x100_0000 - (received - expected)) % expected;
            && Fraction(expected, Wrap32(expected - received)) == left * 256 / e
            && (Fraction(expected, Wrap32(expected - received)) == 0 <==> left * 256 < e)
  {
    var e: nat, y: nat := expected, 0x100_0000 - (received - expected);
    SurplusWraps(received - expected);
    hide Wrap8, Wrap32;
    ShareOfRest(y, e);
  }

  lemma {:induction false} SurplusWraps(d: nat)
    requires 0 < d < 0x100_0000
    ensures 0 < Wrap32(-(d as int))
    ensures Wrap32(Wrap32(-(d as int)) as int * 256) == (0x100_0000 - d) * 256
  {
  }

  lemma {:induction false} ShareOfRest(y: nat, e: nat)
    requires e > 0
    ensures y * 256 / e >= 0 && Wrap8(y * 256 / e) == y % e * 256 / e
    ensures y % e * 256 / e == 0 <==> y % e * 256 < e
  {
    var q, r := y / e, y % e;
    var f := r * 256 / e;
    RemainderShare(r, e);
    assert r * 256 == e * f + r * 256 % e;
    assert y == e * q + r;
    ScaledSplit(y, e, q, r, f);
    QuotientIs(e, y * 256, 256 * q + f, r * 256 % e);
    LowByteOf(q, f);
  }

  lemma {:induction false} RemainderShare(r: nat, e: nat)
    requires r < e
    ensures 0 <= r * 256 / e < 256
    ensures r * 256 / e == 0 <==> r * 256 < e
  {
    var f := r * 256 / e;
    assert r * 256 == e * f + r * 256 % e;
    if f >= 256 {
      MulGrows(e, f, 256);
      assert false;
    } else if f <= -1 {
      MulGrows(e, -1, f);
      assert false;
    } else if f >= 1 {
      MulGrows(e, f, 1);
    }
  }

  lemma {:induction false} ScaledSplit(y: int, e: int, q: int, r: int, f: int)
    requires y == e * q + r
    ensures y * 256 == e * (256 * q + f) + (r * 256 - e * f)
  {
    assert e * (256 * q + f) == 256 * (e * q) + e * f;
  }

  lemma {:induction false} LowByteOf(q: int, f: int)
    requires 0 <= f < 256 && q >= 0
    ensures 256 * q + f >= 0 && Wrap8(256 * q + f) == f
  {
  }

  lemma {:induction false} QuotientIs(e: nat, x: nat, f: int, r: int)
    requires e > 0 && x == e * f + r && 0 <= r < e
    ensures x / e == f
  {
    var g, s := x / e, x % e;
    assert x == e * g + s;
    if f > g {
      MulGrows(e, f, g + 1);
    } else if f < g {
      MulGrows(e, g, f + 1);
    }
  }
}
