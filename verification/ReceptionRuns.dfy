/**
 Reports over whole runs of arrivals: which of them state the truth about the packets
 that arrived, and when they are made.
 */
module ReceptionRuns {
  import opened Words
  import opened ReceptionReport

  // ---------------------------------------------------------------- whole runs

  function After(arrivals: seq<Arrival>): Stats {
    if arrivals == [] then IDLE
    else
      var a := arrivals[|arrivals| - 1];
      Calc(After(arrivals[..|arrivals| - 1]), Wrap16(a.number), a.time, a.parsed).0
  }

  function Learned(arrivals: seq<Arrival>): Truth {
    if arrivals == [] then Truth({}, 0, 0) else Learn(Learned(arrivals[..|arrivals| - 1]), arrivals[|arrivals| - 1].number)
  }

  predicate RegularRun(arrivals: seq<Arrival>) {
    forall k :: 0 <= k < |arrivals| ==>
      Regular(Learned(arrivals[..k]), arrivals[k])
  }

  /** The counters when the last arrival has been counted, before any report. */
  function Counting(arrivals: seq<Arrival>, k: nat): Stats
    requires k < |arrivals|
  {
    Received(After(arrivals[..k]), Wrap16(arrivals[k].number), arrivals[k].time, arrivals[k].parsed)
  }

  /** Whether arrival k triggers a report. */
  predicate Reports(arrivals: seq<Arrival>, k: nat)
    requires k < |arrivals|
  {
    arrivals[k].parsed && Due(Counting(arrivals, k), arrivals[k].time)
  }

  lemma {:induction false} NextAfter(arrivals: seq<Arrival>, k: nat)
    requires k < |arrivals|
    ensures var a := arrivals[k];
            After(arrivals[..k + 1]) == Calc(After(arrivals[..k]), Wrap16(a.number), a.time, a.parsed).0
    ensures Reports(arrivals, k) ==>
              After(arrivals[..k + 1]) == Reported(Counting(arrivals, k)).(lastReport := arrivals[k].time)
    ensures !Reports(arrivals, k) ==> After(arrivals[..k + 1]) == Counting(arrivals, k)
    ensures Learned(arrivals[..k + 1]) == Learn(Learned(arrivals[..k]), arrivals[k].number)
  {
    hide Received, Learn, Reported, BuildReport;
    assert arrivals[..k + 1][..k] == arrivals[..k];
  }

  lemma {:induction false} RunTied(arrivals: seq<Arrival>, k: nat)
    requires RegularRun(arrivals) && k <= |arrivals| < 0xffff_ffff
    ensures |Learned(arrivals[..k]).seen| <= k
    ensures Tied(After(arrivals[..k]), Learned(arrivals[..k]))
  {
    hide *;
    if k == 0 {
      NothingTied(arrivals);
    } else {
      RunTied(arrivals, k - 1);
      NextAfter(arrivals, k - 1);
      CountingTied(arrivals, k - 1);
      ReportedTied(Counting(arrivals, k - 1), Learned(arrivals[..k]), arrivals[k - 1].time);
    }
  }

  lemma {:induction false} NothingTied(arrivals: seq<Arrival>)
    ensures |Learned(arrivals[..0]).seen| == 0 && Tied(After(arrivals[..0]), Learned(arrivals[..0]))
  {
  }

  /** Making a report changes none of the counters that are tied to the true numbers. */
  lemma {:induction false} ReportedTied(s: Stats, g: Truth, time: int)
    ensures Tied(s, g) ==> Tied(Reported(s).(lastReport := time), g)
  {
    hide TruthOk, Expected, Wrap32, Wrap16;
  }

  lemma {:induction false} CountingTied(arrivals: seq<Arrival>, k: nat)
    requires RegularRun(arrivals) && k < |arrivals| < 0xffff_ffff
    requires |Learned(arrivals[..k]).seen| <= k && Tied(After(arrivals[..k]), Learned(arrivals[..k]))
    ensures Tied(Counting(arrivals, k), Learn(Learned(arrivals[..k]), arrivals[k].number))
    ensures |Learn(Learned(arrivals[..k]), arrivals[k].number).seen| <= k + 1
  {
    hide Tied, Regular, After, Learned, Received;
    assert Regular(Learned(arrivals[..k]), arrivals[k]);
    ReceivedTied(After(arrivals[..k]), Learned(arrivals[..k]), arrivals[k]);
  }

  // ---------------------------------------------------------------- the base over whole runs

  /** How many of the first k arrivals parse. */
  function ParsedCount(arrivals: seq<Arrival>, k: nat): nat
    requires k <= |arrivals|
  {
    if k == 0 then 0 else ParsedCount(arrivals, k - 1) + if arrivals[k - 1].parsed then 1 else 0
  }

  /** Arrival j may lower the base: it is one of the first twenty-five that parse. */
  predicate Probing(arrivals: seq<Arrival>, j: nat)
    requires j < |arrivals|
  {
    arrivals[j].parsed && ParsedCount(arrivals, j) < 25
  }

  lemma {:induction false} ProbesAre(arrivals: seq<Arrival>, k: nat)
    requires k <= |arrivals|
    ensures After(arrivals[..k]).minPacketProbe == if ParsedCount(arrivals, k) < 25 then ParsedCount(arrivals, k) else 25
  {
    if k == 0 {
      assert After(arrivals[..0]) == IDLE;
    } else {
      hide After, Learn, Learned, BuildReport, Expected, Tracked;
      ProbesAre(arrivals, k - 1);
      NextAfter(arrivals, k - 1);
      TrackingProbes(After(arrivals[..k - 1]), arrivals[k - 1]);
    }
  }

  lemma {:induction false} TrackingProbes(s: Stats, a: Arrival)
    ensures Tracked(s, Wrap16(a.number), a.time).minPacketProbe == s.minPacketProbe
  {
  }

  /** Some probed packet among the first k has a low half below x. */
  predicate ProbedBelow(arrivals: seq<Arrival>, k: nat, x: int)
    requires k <= |arrivals|
  {
    exists j :: 0 <= j < k && Probing(arrivals, j) && Wrap16(arrivals[j].number) < x
  }

  lemma {:induction false} ProbedStep(arrivals: seq<Arrival>, k: nat, x: int)
    requires k < |arrivals|
    ensures ProbedBelow(arrivals, k + 1, x) <==>
            ProbedBelow(arrivals, k, x) || (Probing(arrivals, k) && Wrap16(arrivals[k].number) < x)
  {
    hide After;
  }

  /** The base is the least low half of the first packet and those probed. */
  lemma {:induction false} BaseIsLeast(arrivals: seq<Arrival>, k: nat, x: int)
    requires RegularRun(arrivals) && k < |arrivals| < 0xffff_ffff
    ensures Counting(arrivals, k).baseSN < x <==> arrivals[0].number < x || ProbedBelow(arrivals, k + 1, x)
  {
    hide After, Learned, ProbedBelow, Regular, RegularRun, Counting, Tied, Reports, Learn, Expected, Wrap16;
    ProbedStep(arrivals, k, x);
    RunTied(arrivals, k);
    if k == 0 {
      FirstBase(arrivals, x);
    } else {
      BaseIsLeast(arrivals, k - 1, x);
      NextAfter(arrivals, k - 1);
      CountIsLength(arrivals, k);
      CountingBase(arrivals, k);
    }
  }

  /** Only a packet probed lowers the base. */
  lemma {:induction false} CountingBase(arrivals: seq<Arrival>, k: nat)
    requires k < |arrivals| && After(arrivals[..k]).packetCount != 0
    ensures var s, low := After(arrivals[..k]), Wrap16(arrivals[k].number);
            Counting(arrivals, k).baseSN == if Probing(arrivals, k) && low < s.baseSN then low else s.baseSN
  {
    hide After, Wrap16, Wrap32;
    ProbesAre(arrivals, k);
  }

  lemma {:induction false} FirstBase(arrivals: seq<Arrival>, x: int)
    requires RegularRun(arrivals) && 0 < |arrivals|
    ensures Counting(arrivals, 0).baseSN == arrivals[0].number == Wrap16(arrivals[0].number)
    ensures !ProbedBelow(arrivals, 0, x)
  {
    assert Regular(Learned(arrivals[..0]), arrivals[0]);
  }

  /** The lowest true number is at most the first. */
  lemma {:induction false} FirstNotBelow(arrivals: seq<Arrival>, k: nat)
    requires RegularRun(arrivals) && k < |arrivals| < 0xffff_ffff
    ensures var g := Learned(arrivals[..k + 1]);
            g.seen != {} && g.base <= arrivals[0].number < 0x1_0000
  {
    hide After, Tied, Reports, Counting, Regular;
    NextAfter(arrivals, k);
    LearnedSome(Learned(arrivals[..k]), arrivals[k].number);
    if k == 0 {
      FirstInCycle(arrivals);
    } else {
      FirstNotBelow(arrivals, k - 1);
    }
  }

  lemma {:induction false} FirstInCycle(arrivals: seq<Arrival>)
    requires RegularRun(arrivals) && arrivals != []
    ensures 0 <= arrivals[0].number < 0x1_0000 && Learned(arrivals[..0]) == Truth({}, 0, 0)
  {
    assert Regular(Learned(arrivals[..0]), arrivals[0]);
  }

  /** The first packet has the number x, or some probed packet among the first k the low half x. */
  predicate OfferedAsBase(arrivals: seq<Arrival>, k: nat, x: int)
    requires 0 < k <= |arrivals|
  {
    arrivals[0].number == x || exists j :: 0 <= j < k && Probing(arrivals, j) && Wrap16(arrivals[j].number) == x
  }

  lemma {:induction false} ProbedAt(arrivals: seq<Arrival>, k: nat, x: int)
    requires 0 < k <= |arrivals| && !ProbedBelow(arrivals, k, x)
    ensures OfferedAsBase(arrivals, k, x) <==> arrivals[0].number == x || ProbedBelow(arrivals, k, x + 1)
  {
    hide Probing, Wrap16;
  }

  /** The base is the lowest number exactly when that was offered and no probed packet has a low half below it. */
  lemma {:induction false} BaseIsLowest(arrivals: seq<Arrival>, k: nat)
    requires RegularRun(arrivals) && k < |arrivals| < 0xffff_ffff
    ensures var g, s := Learned(arrivals[..k + 1]), Counting(arrivals, k);
            && (g.base <= s.baseSN <==> !ProbedBelow(arrivals, k + 1, g.base))
            && (s.baseSN == g.base <==>
                OfferedAsBase(arrivals, k + 1, g.base) && !ProbedBelow(arrivals, k + 1, g.base))
  {
    hide After, Learned, ProbedBelow, OfferedAsBase, Regular, RegularRun, Counting, Tied, Reports, Learn, Expected;
    var g := Learned(arrivals[..k + 1]);
    FirstNotBelow(arrivals, k);
    BaseIsLeast(arrivals, k, g.base);
    BaseIsLeast(arrivals, k, g.base + 1);
    if !ProbedBelow(arrivals, k + 1, g.base) {
      ProbedAt(arrivals, k + 1, g.base);
    }
  }

  /**
   Every report over a regular run gives the true highest number.  Its total is the true
   number of missing values if and only if no probed packet has a low half below the
   lowest number, as one past the wrap may, and, unless nothing is missing, the lowest
   number is the first packet's or the low half of a probed one.  In any case the total is
   the shortfall, or zero, and the losses of all intervals so far add up to the shortfall.
   */
  lemma {:induction false} ReportsAreTrue(arrivals: seq<Arrival>, k: nat)
    requires RegularRun(arrivals) && k < |arrivals| < 0xffff_ffff
    ensures var g, s := Learned(arrivals[..k + 1]), Counting(arrivals, k);
            var report := BuildReport(s);
            Reports(arrivals, k) && g.max - s.baseSN < 0xffff_ffff ==>
              && report.lastSequenceNumber == Wrap32(g.max)
              && (report.totalLost == |Missing(g)| <==>
                  && (OfferedAsBase(arrivals, k + 1, g.base) || Missing(g) == {})
                  && !ProbedBelow(arrivals, k + 1, g.base))
              && report.totalLost == (if Shortfall(s, g) > 0 then Shortfall(s, g) else 0)
              && Wrap32(SumLost(arrivals, k + 1)) == Wrap32(Shortfall(s, g))
  {
    hide After, Learned, Learn, Counting, Calc, Tied, Regular, BuildReport, Missing, SumLost, Expected, Wrap32,
         ProbedBelow, OfferedAsBase, Shortfall, RegularRun;
    var s, g := Counting(arrivals, k), Learned(arrivals[..k + 1]);
    RunTied(arrivals, k);
    CountingTied(arrivals, k);
    NextAfter(arrivals, k);
    LearnedSome(Learned(arrivals[..k]), arrivals[k].number);
    if Reports(arrivals, k) && g.max - s.baseSN < 0xffff_ffff {
      BaseIsLowest(arrivals, k);
      ReportIsTrue(s, g);
      Telescopes(arrivals, k + 1);
    }
  }

  lemma {:induction false} ReportIsTrue(s: Stats, g: Truth)
    requires Tied(s, g) && g.seen != {} && |g.seen| <= 0xffff_ffff && g.max - s.baseSN < 0xffff_ffff
    ensures var report := BuildReport(s);
            && report.lastSequenceNumber == Wrap32(g.max)
            && (report.totalLost == |Missing(g)| <==> s.baseSN == g.base || (Missing(g) == {} && g.base <= s.baseSN))
            && report.totalLost == (if Shortfall(s, g) > 0 then Shortfall(s, g) else 0)
            && Expected(s) as int - s.packetCount as int == Shortfall(s, g)
  {
    hide Fraction, ExtMaxSeq, Missing, TotalLost, Expected, Tied, Wrap32, Shortfall;
    ExtMaxIsTrue(s, g);
    WrappedTwice(g.max);
    TotalLostIsMissing(s, g);
  }

  lemma {:induction false} WrappedTwice(x: int)
    ensures Wrap32(Wrap32(x)) == Wrap32(x)
  {
  }

  lemma {:induction false} LearnedSome(g: Truth, u: int)
    ensures Learn(g, u).seen != {}
  {
    assert u in Learn(g, u).seen;
  }

  /** The losses of all intervals reported before arrival k. */
  function SumLost(arrivals: seq<Arrival>, k: nat): int
    requires k <= |arrivals|
  {
    if k == 0 then 0
    else SumLost(arrivals, k - 1) + if Reports(arrivals, k - 1) then LostInterval(Counting(arrivals, k - 1)) else 0
  }

  lemma {:induction false} WrapSum(a: int, e: int, r: int, lastE: int, lastR: int)
    requires Wrap32(a) == Wrap32(lastE - lastR)
    ensures Wrap32(a + Wrap32(Wrap32(e - lastE) - Wrap32(r - lastR))) == Wrap32(e - r)
  {
    var x, y := e - lastE, r - lastR;
    WrapsTo(x);
    WrapsTo(y);
    WrapsTo(Wrap32(x) - Wrap32(y));
    WrapsTo(a);
    WrapsTo(lastE - lastR);
    var k := y / 0x1_0000_0000 - x / 0x1_0000_0000 - (Wrap32(x) - Wrap32(y)) / 0x1_0000_0000;
    var m := a / 0x1_0000_0000 - (lastE - lastR) / 0x1_0000_0000;
    WrapMultiple(e - r, k + m);
  }

  lemma {:induction false} WrapsTo(x: int)
    ensures x == x / 0x1_0000_0000 * 0x1_0000_0000 + Wrap32(x)
  {
  }

  lemma {:induction false} WrapMultiple(x: int, k: int)
    ensures Wrap32(x + k * 0x1_0000_0000) == Wrap32(x)
  {
  }

  lemma {:induction false} CountingKeepsTotals(s: Stats, a: Arrival)
    ensures var t := Received(s, Wrap16(a.number), a.time, a.parsed);
            t.lastReceived == s.lastReceived && t.lastExpected == s.lastExpected
  {
    hide Wrap16, Wrap32;
  }

  lemma {:induction false} TelescopeStep(sum: int, t: Stats)
    requires Wrap32(sum) == Wrap32(t.lastExpected - t.lastReceived)
    ensures Wrap32(sum + LostInterval(t)) == Wrap32(Reported(t).lastExpected - Reported(t).lastReceived)
  {
    hide Wrap32, Expected;
    WrapSum(sum, Expected(t), t.packetCount, t.lastExpected, t.lastReceived);
  }

  lemma {:induction false} SumLostNext(arrivals: seq<Arrival>, k: nat)
    requires k < |arrivals|
    ensures SumLost(arrivals, k + 1) ==
            SumLost(arrivals, k) + if Reports(arrivals, k) then LostInterval(Counting(arrivals, k)) else 0
  {
    hide Reports, Counting, LostInterval;
  }

  /** Whatever arrives, the interval losses add up to the difference of the last totals. */
  lemma {:induction false} Telescopes(arrivals: seq<Arrival>, k: nat)
    requires k <= |arrivals|
    ensures var s := After(arrivals[..k]);
            Wrap32(SumLost(arrivals, k)) == Wrap32(s.lastExpected - s.lastReceived)
  {
    hide *;
    if k == 0 {
      NothingLost(arrivals);
    } else {
      SumLostNext(arrivals, k - 1);
      Telescopes(arrivals, k - 1);
      NextTotals(arrivals, k - 1);
      if Reports(arrivals, k - 1) {
        TelescopeStep(SumLost(arrivals, k - 1), Counting(arrivals, k - 1));
      }
    }
  }

  lemma {:induction false} NothingLost(arrivals: seq<Arrival>)
    ensures SumLost(arrivals, 0) == 0 && After(arrivals[..0]) == IDLE
    ensures Wrap32(0) == Wrap32(IDLE.lastExpected - IDLE.lastReceived)
  {
  }

  /** Only a report moves the totals. */
  lemma {:induction false} NextTotals(arrivals: seq<Arrival>, k: nat)
    requires k < |arrivals|
    ensures var s, t, u := After(arrivals[..k]), Counting(arrivals, k), After(arrivals[..k + 1]);
            && t.lastExpected == s.lastExpected && t.lastReceived == s.lastReceived
            && (Reports(arrivals, k) ==>
                u.lastExpected == Reported(t).lastExpected && u.lastReceived == Reported(t).lastReceived)
            && (!Reports(arrivals, k) ==> u == t)
  {
    hide After, Reports, Learned, Learn, Calc, Received, Reported;
    NextAfter(arrivals, k);
    CountingKeepsTotals(After(arrivals[..k]), arrivals[k]);
  }

  // ---------------------------------------------------------------- when reports are made

  lemma {:induction false} CountIsLength(arrivals: seq<Arrival>, k: nat)
    requires k <= |arrivals| < 0xffff_ffff
    ensures After(arrivals[..k]).packetCount == k && After(arrivals[..k]).lastReceived <= k
  {
    if k > 0 {
      hide After, Expected, Tracked, Reports, Learn, Learned;
      CountIsLength(arrivals, k - 1);
      NextAfter(arrivals, k - 1);
      CountingCount(After(arrivals[..k - 1]), arrivals[k - 1]);
    }
  }

  lemma {:induction false} CountingCount(s: Stats, a: Arrival)
    requires s.packetCount < 0xffff_ffff
    ensures var t := Received(s, Wrap16(a.number), a.time, a.parsed);
            t.packetCount == s.packetCount + 1 && t.lastReceived == s.lastReceived && t.lastExpected == s.lastExpected
  {
  }

  /**
   A report is only made for a packet just counted, so its interval has received at least
   one, and its fraction is the exact share lost whenever no more arrived than expected
   and fewer than 2^24 were lost.
   */
  lemma {:induction false} ReportedFraction(arrivals: seq<Arrival>, k: nat)
    requires k < |arrivals| < 0xffff_ffff && Reports(arrivals, k)
    ensures var s := Counting(arrivals, k);
            var e, r := ExpectedInterval(s), ReceivedInterval(s);
            && r >= 1
            && (r <= e && e - r < 0x100_0000 ==> BuildReport(s).fractionLost == (e - r) * 256 / e)
  {
    hide After, Expected, Tracked, Reports, Learn, Learned, Received, Fraction, TotalLost, ExtMaxSeq;
    var s := Counting(arrivals, k);
    CountIsLength(arrivals, k);
    CountingCount(After(arrivals[..k]), arrivals[k]);
    CountFits(s.packetCount - s.lastReceived);
    var e, r := ExpectedInterval(s), ReceivedInterval(s);
    if r <= e && e - r < 0x100_0000 {
      CountFits(e - r);
      FractionIsShare(e, r);
    }
  }

  /** No report is made at arrivals i to k - 1. */
  predicate Silent(arrivals: seq<Arrival>, i: nat, k: nat)
    requires i <= k <= |arrivals|
  {
    forall j :: i <= j < k ==> !Reports(arrivals, j)
  }

  /** What the counters remember after k arrivals: a time, a count and an expectation. */
  predicate Remembers(arrivals: seq<Arrival>, k: nat, time: int, received: uint32, expected: uint32)
    requires k <= |arrivals|
  {
    var s := After(arrivals[..k]);
    s.lastReport == time && s.lastReceived == received && s.lastExpected == expected
  }

  /** An arrival that makes no report leaves them, but for the first, which starts the clock. */
  lemma {:induction false} SilentStep(arrivals: seq<Arrival>, k: nat, time: int, received: uint32, expected: uint32)
    requires k < |arrivals| < 0xffff_ffff && Remembers(arrivals, k, time, received, expected)
    ensures var t := Counting(arrivals, k);
            t.lastReport == (if k == 0 then arrivals[0].time else time)
            && t.lastReceived == received && t.lastExpected == expected && t.packetCount == k + 1
    ensures !Reports(arrivals, k) ==>
              Remembers(arrivals, k + 1, if k == 0 then arrivals[0].time else time, received, expected)
    ensures Reports(arrivals, k) ==>
              Remembers(arrivals, k + 1, arrivals[k].time, Counting(arrivals, k).packetCount, Expected(Counting(arrivals, k)))
  {
    hide After, Expected, Learn, Learned, BuildReport;
    CountIsLength(arrivals, k);
    NextAfter(arrivals, k);
    CountingCount(After(arrivals[..k]), arrivals[k]);
  }

  lemma {:induction false} SilentSince(arrivals: seq<Arrival>, i: nat, k: nat)
    requires i < k <= |arrivals| < 0xffff_ffff && Reports(arrivals, i) && Silent(arrivals, i + 1, k)
    ensures Remembers(arrivals, k, arrivals[i].time, Counting(arrivals, i).packetCount, Expected(Counting(arrivals, i)))
    decreases k
  {
    hide After, Expected, Remembers, Reports, Counting;
    if k == i + 1 {
      FieldsAre(arrivals, i);
      var s := After(arrivals[..i]);
      SilentStep(arrivals, i, s.lastReport, s.lastReceived, s.lastExpected);
    } else {
      SilentSince(arrivals, i, k - 1);
      SilentStep(arrivals, k - 1, arrivals[i].time, Counting(arrivals, i).packetCount, Expected(Counting(arrivals, i)));
    }
  }

  lemma {:induction false} FieldsAre(arrivals: seq<Arrival>, k: nat)
    requires k <= |arrivals|
    ensures var s := After(arrivals[..k]); Remembers(arrivals, k, s.lastReport, s.lastReceived, s.lastExpected)
  {
  }

  lemma {:induction false} SilentFromStart(arrivals: seq<Arrival>, k: nat)
    requires k <= |arrivals| < 0xffff_ffff && Silent(arrivals, 0, k)
    ensures Remembers(arrivals, k, if k == 0 then 0 else arrivals[0].time, 0, 0)
  {
    if k == 0 {
      assert After(arrivals[..0]) == IDLE;
    } else {
      hide After, Expected, Remembers, Reports;
      SilentFromStart(arrivals, k - 1);
      SilentStep(arrivals, k - 1, if k == 1 then 0 else arrivals[0].time, 0, 0);
    }
  }

  /**
   After the report at arrival i the next one is made at the first arrival that parses a
   second or more after it, and speaks of exactly the packets received and expected since.
   */
  lemma {:induction false} NextReport(arrivals: seq<Arrival>, i: nat, k: nat)
    requires i < k < |arrivals| < 0xffff_ffff && Reports(arrivals, i) && Silent(arrivals, i + 1, k)
    ensures Reports(arrivals, k) <==> arrivals[k].parsed && arrivals[k].time - arrivals[i].time >= 1_000_000_000
    ensures ReceivedInterval(Counting(arrivals, k)) == k - i
    ensures ExpectedInterval(Counting(arrivals, k)) ==
            Wrap32(Expected(Counting(arrivals, k)) - Expected(Counting(arrivals, i)))
  {
    hide After, Expected, Remembers, Counting, Silent;
    SilentSince(arrivals, i, k);
    SilentStep(arrivals, k, arrivals[i].time, Counting(arrivals, i).packetCount, Expected(Counting(arrivals, i)));
    var s := After(arrivals[..i]);
    FieldsAre(arrivals, i);
    SilentStep(arrivals, i, s.lastReport, s.lastReceived, s.lastExpected);
  }

  /** The first report is made at the first arrival that parses a second or more after the very first. */
  lemma {:induction false} FirstReport(arrivals: seq<Arrival>, k: nat)
    requires k < |arrivals| < 0xffff_ffff && Silent(arrivals, 0, k)
    ensures Reports(arrivals, k) <==> arrivals[k].parsed && arrivals[k].time - arrivals[0].time >= 1_000_000_000
    ensures ReceivedInterval(Counting(arrivals, k)) == k + 1
    ensures ExpectedInterval(Counting(arrivals, k)) == Expected(Counting(arrivals, k))
  {
    hide After, Expected, Remembers, Counting, Silent;
    SilentFromStart(arrivals, k);
    SilentStep(arrivals, k, if k == 0 then 0 else arrivals[0].time, 0, 0);
  }

  // ---------------------------------------------------------------- a run with a surplus

  /** Numbers 0 and 3 make the first report; then the late 1 arrives between it and 5. */
  function LateRun(): seq<Arrival> {
    [Arrival(0, 0, true), Arrival(3, 1_000_000_000, true), Arrival(1, 1_000_000_001, true),
     Arrival(4, 1_000_000_002, true), Arrival(5, 2_000_000_000, true)]
  }

  lemma {:induction false} NoCycles(b: nat)
    ensures Or(0, b) == b
  {
  }

  /** Each arrival of the late run, counted and reported. */
  lemma {:induction false} LateRunCalc()
    ensures Calc(IDLE, 0, 0, true).0 == Stats(0, 0, 0, 1, 0, 0, 1, 0)
    ensures Calc(Stats(0, 0, 0, 1, 0, 0, 1, 0), 3, 1_000_000_000, true).0 == Stats(0, 3, 0, 2, 4, 2, 2, 1_000_000_000)
  {
    hide Or, Fraction, TotalLost;
    NoCycles(3);
  }

  lemma {:induction false} LateRunCalcOn()
    ensures Calc(Stats(0, 3, 0, 2, 4, 2, 2, 1_000_000_000), 1, 1_000_000_001, true).0 ==
            Stats(0, 3, 0, 3, 4, 2, 3, 1_000_000_000)
    ensures Calc(Stats(0, 3, 0, 3, 4, 2, 3, 1_000_000_000), 4, 1_000_000_002, true).0 ==
            Stats(0, 4, 0, 4, 4, 2, 4, 1_000_000_000)
  {
    hide BuildReport, Reported;
  }

  lemma {:induction false} LateRunLearn()
    ensures Learn(Truth({}, 0, 0), 0) == Truth({0}, 0, 0)
    ensures Learn(Truth({0}, 0, 0), 3) == Truth({0, 3}, 0, 3)
    ensures Learn(Truth({0, 3}, 0, 3), 1) == Truth({0, 1, 3}, 0, 3)
    ensures Learn(Truth({0, 1, 3}, 0, 3), 4) == Truth({0, 1, 3, 4}, 0, 4)
    ensures Learn(Truth({0, 1, 3, 4}, 0, 4), 5) == Truth({0, 1, 3, 4, 5}, 0, 5)
  {
  }

  /** Where the late run stands before each of its arrivals. */
  lemma {:induction false} LateRunStates()
    ensures var a := LateRun();
            && (After(a[..0]), Learned(a[..0])) == (IDLE, Truth({}, 0, 0))
            && (After(a[..1]), Learned(a[..1])) == (Stats(0, 0, 0, 1, 0, 0, 1, 0), Truth({0}, 0, 0))
            && (After(a[..2]), Learned(a[..2])) == (Stats(0, 3, 0, 2, 4, 2, 2, 1_000_000_000), Truth({0, 3}, 0, 3))
            && (After(a[..3]), Learned(a[..3])) == (Stats(0, 3, 0, 3, 4, 2, 3, 1_000_000_000), Truth({0, 1, 3}, 0, 3))
            && (After(a[..4]), Learned(a[..4])) == (Stats(0, 4, 0, 4, 4, 2, 4, 1_000_000_000), Truth({0, 1, 3, 4}, 0, 4))
            && Learned(a[..5]) == Truth({0, 1, 3, 4, 5}, 0, 5)
  {
    hide After, Learned, Calc, Learn, Reports, Counting, Reported;
    var a := LateRun();
    LateRunStarts();
    LateRunCalc();
    LateRunCalcOn();
    LateRunLearn();
    NextAfter(a, 0);
    NextAfter(a, 1);
    NextAfter(a, 2);
    NextAfter(a, 3);
    NextAfter(a, 4);
  }

  lemma {:induction false} LateRunStarts()
    ensures (After(LateRun()[..0]), Learned(LateRun()[..0])) == (IDLE, Truth({}, 0, 0))
  {
  }

  /** Every arrival of the late run is one the counts are promised for. */
  lemma {:induction false} LateRunRegular()
    ensures RegularRun(LateRun())
  {
    LateRunStates();
    hide After, Learned;
    var a := LateRun();
    forall k | 0 <= k < |a| ensures Regular(Learned(a[..k]), a[k]) {
      assert k == 0 || k == 1 || k == 2 || k == 3 || k == 4;
    }
  }

  /** Its last arrival, counted, and the report that one triggers. */
  lemma {:induction false} LateRunLast()
    ensures Counting(LateRun(), 4) == Stats(0, 5, 0, 5, 4, 2, 5, 1_000_000_000)
    ensures Reports(LateRun(), 4)
  {
    LateRunStates();
    hide After, Learned;
  }

  lemma {:induction false} LateReport()
    ensures var s := Stats(0, 5, 0, 5, 4, 2, 5, 1_000_000_000);
            && ExpectedInterval(s) == 2 && ReceivedInterval(s) == 3
            && BuildReport(s) == Report(128, 1, 5)
  {
    NoCycles(5);
    hide Or;
  }

  /**
   A regular run whose second report states the highest number and the one missing value
   truly, and half of the interval as lost although more arrived than was expected.
   */
  lemma {:induction false} SurplusReadsAsLoss()
    ensures var a := LateRun();
            && RegularRun(a) && Reports(a, 4)
            && ExpectedInterval(Counting(a, 4)) == 2 && ReceivedInterval(Counting(a, 4)) == 3
            && BuildReport(Counting(a, 4)) == Report(128, 1, 5) && Missing(Learned(a[..5])) == {2}
  {
    hide RegularRun, Reports, Counting, BuildReport, After, Learned;
    LateRunRegular();
    LateRunLast();
    LateReport();
    LateRunStates();
    OneMissing();
  }

  lemma {:induction false} OneMissing()
    ensures Missing(Truth({0, 1, 3, 4, 5}, 0, 5)) == {2}
  {
    var g := Truth({0, 1, 3, 4, 5}, 0, 5);
    forall u ensures u in Missing(g) <==> u == 2 {
    }
  }

  // ---------------------------------------------------------------- two runs with a false total

  /** The last number before the wrap, and a second later the first one after it. */
  function WrapRun(): seq<Arrival> { [Arrival(65535, 0, true), Arrival(65536, REPORT_DELTA, true)] }

  /** Number 2, and a second later the last number before the wrap it followed. */
  function LateFirstRun(): seq<Arrival> { [Arrival(2, 0, true), Arrival(-1, REPORT_DELTA, true)] }

  lemma {:induction false} OneCycleUp()
    ensures Or(0x1_0000, 0) == 0x1_0000
  {
  }

  /** Where a run of two stands. */
  lemma {:induction false} TwoRun(a: seq<Arrival>)
    requires |a| == 2 && a[0].parsed && a[1].parsed && a[0].time == 0 && a[1].time == REPORT_DELTA
    requires 0 <= a[0].number < 0x1_0000
    ensures var low := Wrap16(a[0].number);
            && After(a[..0]) == IDLE && Learned(a[..0]) == Truth({}, 0, 0)
            && After(a[..1]) == Stats(low, low, 0, 1, 0, 0, 1, 0)
            && Counting(a, 1) == Received(Stats(low, low, 0, 1, 0, 0, 1, 0), Wrap16(a[1].number), REPORT_DELTA, true)
            && Learned(a[..1]) == Truth({a[0].number}, a[0].number, a[0].number)
            && Learned(a[..2]) == Learn(Learned(a[..1]), a[1].number)
  {
    hide BuildReport, Expected;
    NextAfter(a, 0);
    NextAfter(a, 1);
  }

  lemma {:induction false} TwoRegular(a: seq<Arrival>)
    requires |a| == 2 && a[0].parsed && a[1].parsed && a[0].time == 0 && a[1].time == REPORT_DELTA
    requires 0 <= a[0].number < 0x1_0000 && a[1].number != a[0].number && -0x8000 <= a[1].number - a[0].number < 0x8000
    ensures RegularRun(a)
  {
    TwoRun(a);
    hide After, Learned;
    forall k | 0 <= k < |a| ensures Regular(Learned(a[..k]), a[k]) {
      assert k == 0 || k == 1;
    }
  }

  lemma {:induction false} WrapReport()
    ensures var s := Received(Stats(65535, 65535, 0, 1, 0, 0, 1, 0), 0, REPORT_DELTA, true);
            s == Stats(0, 0, 0x1_0000, 2, 0, 0, 2, 0) && BuildReport(s) == Report(255, 65535, 65536)
  {
    hide Or, Fraction;
    OneCycleUp();
    WrapFraction();
    var s := Stats(0, 0, 0x1_0000, 2, 0, 0, 2, 0);
    assert Expected(s) == 65537;
  }

  lemma {:induction false} WrapFraction()
    ensures Fraction(65537, 65535) == 255
  {
  }

  lemma {:induction false} LateFirstCounted()
    ensures Received(Stats(2, 2, 0, 1, 0, 0, 1, 0), 65535, REPORT_DELTA, true) == Stats(2, 2, 0, 2, 0, 0, 2, 0)
  {
  }

  lemma {:induction false} LateFirstReport()
    ensures BuildReport(Stats(2, 2, 0, 2, 0, 0, 2, 0)) == Report(0, 0, 2)
  {
    var s := Stats(2, 2, 0, 2, 0, 0, 2, 0);
    LateFirstExpected();
    LateFirstFraction();
    hide Or, Fraction, Expected, ExtMaxSeq;
    assert ExpectedInterval(s) == 1 && ReceivedInterval(s) == 2;
    assert LostInterval(s) == 0xffff_ffff;
  }

  lemma {:induction false} LateFirstExpected()
    ensures var s := Stats(2, 2, 0, 2, 0, 0, 2, 0); ExtMaxSeq(s) == 2 && Expected(s) == 1
  {
    NoCycles(2);
    hide Or;
  }

  lemma {:induction false} LateFirstFraction()
    ensures Fraction(1, 0xffff_ffff) == 0
  {
  }

  lemma {:induction false} NoneOfTwo()
    ensures Learn(Truth({65535}, 65535, 65535), 65536) == Truth({65535, 65536}, 65535, 65536)
    ensures Missing(Truth({65535, 65536}, 65535, 65536)) == {}
  {
    assert forall u :: u !in Missing(Truth({65535, 65536}, 65535, 65536));
  }

  lemma {:induction false} TwoOfFour()
    ensures Learn(Truth({2}, 2, 2), -1) == Truth({2, -1}, -1, 2)
    ensures Missing(Truth({2, -1}, -1, 2)) == {0, 1}
  {
    assert forall u :: u in Missing(Truth({2, -1}, -1, 2)) <==> u == 0 || u == 1;
  }

  /** Nothing is missing, and 65535 packets are reported lost. */
  lemma {:induction false} WrapReadsAsLoss()
    ensures var a := WrapRun();
            && RegularRun(a) && Reports(a, 1) && Missing(Learned(a[..2])) == {}
            && BuildReport(Counting(a, 1)) == Report(255, 65535, 65536)
  {
    hide RegularRun, After, Learned, Learn, Missing, BuildReport, Counting, Received;
    TwoRegular(WrapRun());
    TwoRun(WrapRun());
    WrapReport();
    NoneOfTwo();
  }

  /** Two values are missing, and none is reported lost. */
  lemma {:induction false} LateFirstHidesLoss()
    ensures var a := LateFirstRun();
            && RegularRun(a) && Reports(a, 1) && Missing(Learned(a[..2])) == {0, 1}
            && BuildReport(Counting(a, 1)) == Report(0, 0, 2)
  {
    hide RegularRun, After, Learned, Learn, Missing, BuildReport, Counting, Received;
    TwoRegular(LateFirstRun());
    TwoRun(LateFirstRun());
    LateFirstCounted();
    LateFirstReport();
    TwoOfFour();
  }
}
