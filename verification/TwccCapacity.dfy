/**
 When a batch fits the two fixed arrays: exactly, on the arrivals, and with runs from a
 new responder that overflow either array.
 */
module TwccCapacity {
  import opened Words
  import opened TwccFormat
  import opened TwccPacker
  import opened TwccDeltas
  import opened TwccBatch
  import opened TwccRecord
  import opened TwccResponder

  // ---------------------------------------------------------------- the delta array

  /** The arrival times of the packets that arrived, in the order of their numbers. */
  function Arrivals(pkts: seq<ExtInfo>): seq<int> {
    if pkts == [] then []
    else
      var t := pkts[|pkts| - 1].timestamp;
      if t != 0 then Arrivals(pkts[..|pkts| - 1]) + [t] else Arrivals(pkts[..|pkts| - 1])
  }

  /** A gap in microseconds that one byte of 250 microsecond units cannot say. */
  predicate FarGap(a: int, b: int) { b - a <= -250 || b - a >= 64_000 }

  function FarGaps(arrivals: seq<int>): nat {
    if |arrivals| < 2 then 0
    else
      var n := |arrivals| - 1;
      FarGaps(arrivals[..n]) + if FarGap(arrivals[n - 1], arrivals[n]) then 1 else 0
  }

  lemma {:induction false} GapIsWide(a: int, b: int)
    ensures IsSmall(TruncDiv(b - a, DELTA_UNIT)) <==> !FarGap(a, b)
  {
  }

  lemma {:induction false} ArrivalsEnd(pkts: seq<ExtInfo>)
    ensures LastArrival(pkts) ==
            if Arrivals(pkts) == [] then None else Some(Arrivals(pkts)[|Arrivals(pkts)| - 1])
    ensures |Deltas(pkts)| == |Arrivals(pkts)|
  {
    if pkts != [] {
      hide Delta;
      ArrivalsEnd(pkts[..|pkts| - 1]);
    }
  }

  /** The deltas take one byte per arrival, and another for every far gap between neighbours. */
  lemma {:induction false} DeltaBytesSize(pkts: seq<ExtInfo>)
    requires forall i :: 0 <= i < |pkts| ==> pkts[i].timestamp >= 0
    ensures |DeltaBytes(pkts)| == |Arrivals(pkts)| + FarGaps(Arrivals(pkts))
  {
    hide DeltaBytes, Delta, Deltas, LastArrival, FarGap, TruncDiv;
    if pkts == [] {
      NoBytes();
    } else {
      var before, p := pkts[..|pkts| - 1], pkts[|pkts| - 1];
      DeltaBytesSize(before);
      assert pkts == before + [p];
      DeltaBytesStep(before, p);
      ArrivalsEnd(before);
      if p.timestamp != 0 {
        assert Arrivals(pkts)[..|Arrivals(before)|] == Arrivals(before);
        if Arrivals(before) == [] {
          FirstDeltaSmall(before, p.timestamp);
        } else {
          NextDelta(before, p.timestamp);
        }
      }
    }
  }

  lemma {:induction false} NoBytes()
    ensures DeltaBytes([]) == []
  {
  }

  lemma {:induction false} NextDelta(before: seq<ExtInfo>, timestamp: int)
    requires LastArrival(before).Some?
    ensures IsSmall(Delta(before, timestamp)) <==> !FarGap(LastArrival(before).value, timestamp)
  {
    GapIsWide(LastArrival(before).value, timestamp);
  }

  predicate AllFar(arrivals: seq<int>) {
    forall i :: 1 <= i < |arrivals| ==> FarGap(arrivals[i - 1], arrivals[i])
  }

  lemma {:induction false} FarGapsBound(arrivals: seq<int>)
    ensures arrivals != [] ==> FarGaps(arrivals) <= |arrivals| - 1
    ensures arrivals != [] ==> (FarGaps(arrivals) == |arrivals| - 1 <==> AllFar(arrivals))
  {
    if |arrivals| >= 2 {
      hide FarGap, AllFar;
      FarGapsBound(arrivals[..|arrivals| - 1]);
      AllFarFront(arrivals);
    } else {
      NoneToBeFar(arrivals);
    }
  }

  lemma {:induction false} NoneToBeFar(arrivals: seq<int>)
    requires |arrivals| < 2
    ensures AllFar(arrivals)
  {
  }

  lemma {:induction false} AllFarFront(arrivals: seq<int>)
    requires |arrivals| >= 2
    ensures var n := |arrivals| - 1;
            AllFar(arrivals) <==> AllFar(arrivals[..n]) && FarGap(arrivals[n - 1], arrivals[n])
  {
    hide FarGap;
    var n := |arrivals| - 1;
    assert forall i :: 0 <= i < n ==> arrivals[..n][i] == arrivals[i];
  }

  /** With at most 101 arrivals the deltas overflow their array exactly when there are 101 and every gap is far. */
  lemma {:induction false} DeltasOverflow(pkts: seq<ExtInfo>)
    requires forall i :: 0 <= i < |pkts| ==> pkts[i].timestamp >= 0
    requires |Arrivals(pkts)| <= 101
    ensures |DeltaBytes(pkts)| > DELTAS_SIZE <==> |Arrivals(pkts)| == 101 && AllFar(Arrivals(pkts))
  {
    hide AllFar, FarGaps, Arrivals, DeltaBytes;
    DeltaBytesSize(pkts);
    FarGapsBound(Arrivals(pkts));
    NoFarGaps();
  }

  lemma {:induction false} NoFarGaps()
    ensures FarGaps([]) == 0
  {
  }

  // ---------------------------------------------------------------- both arrays

  /**
   A list of up to 294 numbers with up to 101 arrivals fits the arrays unless all 101
   arrived with nothing but far gaps.
   */
  lemma {:induction false} FitsExactly(pkts: seq<ExtInfo>)
    requires |pkts| <= 294 && |Arrivals(pkts)| <= 101
    requires forall i :: 0 <= i < |pkts| ==> pkts[i].timestamp >= 0
    ensures Fits(pkts) <==> !(|Arrivals(pkts)| == 101 && AllFar(Arrivals(pkts)))
  {
    hide Arrivals, AllFar, DeltaBytes, Chunks;
    StatusesReceived(pkts);
    ChunkCountBound(Statuses(pkts));
    DeltasOverflow(pkts);
  }

  lemma {:induction false} ArrivalsConcat(a: seq<ExtInfo>, b: seq<ExtInfo>)
    ensures Arrivals(a + b) == Arrivals(a) + Arrivals(b)
  {
    if b == [] {
      assert a + b == a;
    } else {
      ArrivalsConcat(a, b[..|b| - 1]);
      assert (a + b)[..|a + b| - 1] == a + b[..|b| - 1];
    }
  }

  lemma {:induction false} NothingArrived(ps: seq<ExtInfo>)
    requires forall i :: 0 <= i < |ps| ==> ps[i].timestamp == 0
    ensures Arrivals(ps) == []
  {
    if ps != [] {
      NothingArrived(ps[..|ps| - 1]);
    }
  }

  /** Filling gaps adds no arrivals, and no times before zero. */
  lemma {:induction false} FilledArrivals(last: uint32, infos: seq<ExtInfo>)
    requires forall i :: 0 <= i < |infos| ==> infos[i].timestamp >= 0
    ensures var ps := FillGaps(last, infos).1;
            |Arrivals(ps)| <= |infos| && forall i :: 0 <= i < |ps| ==> ps[i].timestamp >= 0
  {
    if infos != [] {
      var front, x := infos[..|infos| - 1], infos[|infos| - 1];
      FilledArrivals(last, front);
      var (l, ps) := FillGaps(last, front);
      var fill: seq<ExtInfo> := if l != 0 then Missing(l, x.tsn) else [];
      NothingArrived(fill);
      ArrivalsConcat(ps, fill);
      ArrivalsConcat(ps + fill, [x]);
      OneArrival(x);
    }
  }

  lemma {:induction false} OneArrival(x: ExtInfo)
    ensures |Arrivals([x])| <= 1
  {
    assert Arrivals([]) == [];
  }

  lemma {:induction false} TriggeredArrivals(r: Recorder, p: Packet)
    requires |r.extInfo| <= 100 && p.time >= 0
    requires forall i :: 0 <= i < |r.extInfo| ==> r.extInfo[i].timestamp >= 0
    ensures |Arrivals(Triggered(r, p).1)| <= 101
    ensures forall i :: 0 <= i < |Triggered(r, p).1| ==> Triggered(r, p).1[i].timestamp >= 0
  {
    hide Arrivals, FillGaps, Or;
    var batch := r.extInfo + [Recorded(r, p)];
    SortPermutes(batch);
    assert |multiset(SortByTsn(batch))| == |multiset(batch)|;
    forall i | 0 <= i < |SortByTsn(batch)| ensures SortByTsn(batch)[i].timestamp >= 0 {
      assert SortByTsn(batch)[i] in batch;
    }
    FilledArrivals(r.lastExtSN, SortByTsn(batch));
  }

  lemma {:induction false} TimesForward(media: uint32, now: int, ps: seq<Packet>)
    requires forall i :: 0 <= i < |ps| ==> ps[i].time >= 0
    ensures forall i :: 0 <= i < |Run(media, now, ps).extInfo| ==> Run(media, now, ps).extInfo[i].timestamp >= 0
  {
    if ps != [] {
      hide Due, Or, NextCycles, Triggered;
      TimesForward(media, now, ps[..|ps| - 1]);
    }
  }

  /**
   In any run from a new responder, a feedback of up to 294 numbers fits the arrays unless
   101 packets arrived, in the order of their numbers, with nothing but far gaps.
   */
  lemma {:induction false} FeedbackFits(media: uint32, now: int, ps: seq<Packet>, p: Packet)
    requires p.time >= 0 && forall i :: 0 <= i < |ps| ==> ps[i].time >= 0
    requires |Triggered(Run(media, now, ps), p).1| <= 294
    ensures var pkts := Triggered(Run(media, now, ps), p).1;
            Fits(pkts) <==> !(|Arrivals(pkts)| == 101 && AllFar(Arrivals(pkts)))
  {
    hide Run, Triggered, Arrivals, AllFar, Fits;
    AtMostHundred(media, now, ps);
    TimesForward(media, now, ps);
    TriggeredArrivals(Run(media, now, ps), p);
    FitsExactly(Triggered(Run(media, now, ps), p).1);
  }

  /** Up to 294 numbers of which up to 100 arrived always fit. */
  lemma {:induction false} SmallBatchFits(pkts: seq<ExtInfo>)
    requires |pkts| <= 294 && |Deltas(pkts)| <= 100
    requires forall i :: 0 <= i < |pkts| ==> pkts[i].timestamp >= 0
    ensures Fits(pkts)
  {
    hide Arrivals, AllFar, Fits;
    ArrivalsEnd(pkts);
    FitsExactly(pkts);
  }

  /** A run can be no longer than its batch. */
  lemma {:induction false} ShortRunsFit(pkts: seq<ExtInfo>)
    requires |pkts| < 0x2000
    ensures RunsFit(Chunks(Statuses(pkts)))
  {
    StatusesReceived(pkts);
    RunsWithin(Statuses(pkts));
  }

  // ---------------------------------------------------------------- runs that wait for their last packet

  function Infos(ps: seq<Packet>): (r: seq<ExtInfo>)
    ensures |r| == |ps|
    ensures forall i :: 0 <= i < |ps| ==> r[i] == ExtInfo(ps[i].sn, TruncDiv(ps[i].time, 1000))
  {
    if ps == [] then []
    else Infos(ps[..|ps| - 1]) + [ExtInfo(ps[|ps| - 1].sn, TruncDiv(ps[|ps| - 1].time, 1000))]
  }

  /** Few packets of one cycle, all within a fifth of a second of the start. */
  predicate Early(now: int, ps: seq<Packet>) {
    |ps| <= 100 && forall i :: 0 <= i < |ps| ==> ps[i].sn <= 0xF000 && ps[i].time < now + 200_000_000
  }

  lemma {:induction false} NoCycle(b: nat)
    requires b < 0x1_0000
    ensures Wrap32(Or(0, b)) == b
  {
  }

  /** Such packets only wait: no feedback is due before the next one. */
  lemma {:induction false} EarlyRun(media: uint32, now: int, ps: seq<Packet>)
    requires Early(now, ps)
    ensures var last := if ps == [] then 0 else ps[|ps| - 1].sn;
            Run(media, now, ps) == Recorder(Infos(ps), now + 100_000_000, 0, 0, last)
    ensures ps != [] ==> !Due(Run(media, now, ps[..|ps| - 1]), media, ps[|ps| - 1])
  {
    hide Or, TruncDiv, Triggered;
    if ps != [] {
      var front, p := ps[..|ps| - 1], ps[|ps| - 1];
      EarlyRun(media, now, front);
      NoCycle(p.sn);
    }
  }

  /** Until its last packet a run is early, and that one triggers a feedback of all of them. */
  predicate FirstDue(media: uint32, now: int, ps: seq<Packet>)
    requires ps != []
  {
    var n := |ps| - 1;
    && (forall k :: 0 <= k < n ==> !Due(Run(media, now, ps[..k]), media, ps[k]))
    && Due(Run(media, now, ps[..n]), media, ps[n])
    && Triggered(Run(media, now, ps[..n]), ps[n]) == Batch(0, Infos(ps))
  }

  lemma {:induction false} LastIsDue(media: uint32, now: int, ps: seq<Packet>)
    requires ps != [] && Early(now, ps[..|ps| - 1]) && ps[|ps| - 1].sn <= 0xF000
    requires |ps| > 100 || (|ps| > 20 && media != 0 && ps[|ps| - 1].time >= now + 200_000_000)
    ensures FirstDue(media, now, ps)
  {
    hide Or, Batch, TruncDiv, Run;
    var n := |ps| - 1;
    EarlyRun(media, now, ps[..n]);
    NoCycle(ps[n].sn);
    forall k | 0 <= k < n ensures !Due(Run(media, now, ps[..k]), media, ps[k]) {
      var part := ps[..n][..k + 1];
      assert part[..k] == ps[..k] && part[k] == ps[k];
      EarlyRun(media, now, part);
    }
  }

  // ---------------------------------------------------------------- a run that overflows the deltas

  /** Packets 200, 199, ..., one every 300 microseconds. */
  function Backwards(now: nat, n: nat): (r: seq<Packet>)
    requires n <= 200
    ensures |r| == n
  {
    if n == 0 then [] else Backwards(now, n - 1) + [Packet(201 - n, now + 300_000 * n, false)]
  }

  lemma {:induction false} BackwardsAt(now: nat, n: nat, k: nat)
    requires k < n <= 200
    ensures Backwards(now, n)[k] == Packet(200 - k, now + 300_000 * (k + 1), false)
  {
    if k < n - 1 {
      BackwardsAt(now, n - 1, k);
    }
  }

  /** The same records in the order of their numbers. */
  function Mirrored(now: nat, n: nat): (r: seq<ExtInfo>)
    requires n <= 200
    ensures |r| == n
    ensures forall k :: 0 <= k < n ==> r[k] == ExtInfo(201 - n + k, now / 1000 + 300 * (n - k))
  {
    seq(n, k requires 0 <= k < n => ExtInfo(201 - n + k, now / 1000 + 300 * (n - k)))
  }

  lemma {:induction false} Microseconds(now: nat, n: nat)
    ensures TruncDiv(now + 300_000 * n, 1000) == now / 1000 + 300 * n
  {
  }

  lemma {:induction false} BackwardsSorted(now: nat, n: nat)
    requires n <= 200
    ensures SortByTsn(Infos(Backwards(now, n))) == Mirrored(now, n)
  {
    hide SortByTsn, TruncDiv;
    var recorded, m := Infos(Backwards(now, n)), Mirrored(now, n);
    forall k | 0 <= k < n ensures recorded[k] == m[n - 1 - k] {
      BackwardsAt(now, n, k);
      Microseconds(now, k + 1);
    }
    SortSorts(recorded);
    SortPermutes(recorded);
    forall y ensures y in SortByTsn(recorded) <==> y in m {
      if y in m {
        var k :| 0 <= k < n && m[k] == y;
        assert recorded[n - 1 - k] == y;
      }
    }
    SortUnique(SortByTsn(recorded), m);
  }

  /** A list without gaps is reported as it is. */
  lemma {:induction false} NoGaps(infos: seq<ExtInfo>)
    requires infos != [] && infos[0].tsn > 0
    requires forall i :: 0 < i < |infos| ==> infos[i].tsn as int == infos[i - 1].tsn as int + 1
    ensures FillGaps(0, infos) == (infos[|infos| - 1].tsn, infos)
  {
    var front, x := infos[..|infos| - 1], infos[|infos| - 1];
    if front == [] {
      assert [] + [] + [x] == infos;
    } else {
      NoGaps(front);
      NoneBetween(front[|front| - 1].tsn, x.tsn);
      assert front + [] + [x] == infos;
    }
  }

  lemma {:induction false} NoneBetween(last: uint32, tsn: uint32)
    requires tsn as int == last as int + 1
    ensures Missing(last, tsn) == []
  {
  }

  lemma {:induction false} MirroredArrivals(now: nat, n: nat)
    requires n <= 200
    ensures Arrivals(Mirrored(now, n)) == seq(n, k requires 0 <= k < n => now / 1000 + 300 * (n - k))
  {
    AllArrived(Mirrored(now, n));
  }

  lemma {:induction false} AllArrived(ps: seq<ExtInfo>)
    requires forall i :: 0 <= i < |ps| ==> ps[i].timestamp != 0
    ensures |Arrivals(ps)| == |ps| && forall i :: 0 <= i < |ps| ==> Arrivals(ps)[i] == ps[i].timestamp
  {
    if ps != [] {
      AllArrived(ps[..|ps| - 1]);
    }
  }

  /**
   A run from a new responder, with whatever media source, whose first feedback does not
   fit: 101 packets that arrive in the reverse order of their numbers take 201 bytes.
   */
  lemma {:induction false} ReverseOrderOverflows(media: uint32, now: nat)
    ensures var ps := Backwards(now, 101);
            && FirstDue(media, now, ps)
            && |DeltaBytes(Batch(0, Infos(ps)).1)| == 201 && !Fits(Batch(0, Infos(ps)).1)
  {
    hide Backwards, Due, Run, SortByTsn, FillGaps, DeltaBytes, Arrivals, AllFar, Triggered;
    var ps := Backwards(now, 101);
    forall k | 0 <= k < 101 ensures ps[k].sn <= 0xF000 && ps[k].time < now + 200_000_000 {
      BackwardsAt(now, 101, k);
    }
    LastIsDue(media, now, ps);
    BackwardsSorted(now, 101);
    NoGaps(Mirrored(now, 101));
    var arrivals := Arrivals(Mirrored(now, 101));
    MirroredArrivals(now, 101);
    AllGapsFar(now, arrivals);
    DeltaBytesSize(Mirrored(now, 101));
    FarGapsBound(arrivals);
  }

  lemma {:induction false} AllGapsFar(now: nat, arrivals: seq<int>)
    requires |arrivals| == 101 && forall k :: 0 <= k < 101 ==> arrivals[k] == now / 1000 + 300 * (101 - k)
    ensures AllFar(arrivals)
  {
  }

  // ---------------------------------------------------------------- a run that overflows the payload

  /** Packets 1, 23, 45, ..., one every 250 microseconds. */
  function Sparse(now: nat, n: nat): (r: seq<Packet>)
    requires n <= 1000
    ensures |r| == n
    ensures forall k :: 0 <= k < n ==> r[k] == Packet(22 * k + 1, now + 194_750_000 + 250_000 * k, false)
  {
    seq(n, k requires 0 <= k < n => Packet(22 * k + 1, now + 194_750_000 + 250_000 * k, false))
  }

  /** What is reported of them, each after the 21 numbers that are missing before it. */
  function SparseList(now: nat, n: nat): seq<ExtInfo>
    requires 0 < n <= 1000
  {
    if n == 1 then [ExtInfo(1, (now + 194_750_000) / 1000)]
    else SparseList(now, n - 1) + Missing(22 * n - 43, 22 * n - 21) + [ExtInfo(22 * n - 21, SparseTime(now, n - 1))]
  }

  function SparseTime(now: nat, k: nat): nat { (now + 194_750_000) / 1000 + 250 * k }

  lemma {:induction false} SparseRecorded(now: nat, n: nat)
    requires 0 < n <= 1000
    ensures Infos(Sparse(now, n)) == seq(n, k requires 0 <= k < n => ExtInfo(22 * k + 1, SparseTime(now, k)))
  {
    forall k | 0 <= k < n ensures TruncDiv(now + 194_750_000 + 250_000 * k, 1000) == SparseTime(now, k) {
    }
  }

  lemma {:induction false} SparseBatch(now: nat, n: nat)
    requires 0 < n <= 1000
    ensures FillGaps(0, Infos(Sparse(now, n))) == (22 * n - 21, SparseList(now, n))
  {
    hide Missing, SparseList, Extend, FillGaps;
    SparseRecorded(now, n);
    var infos := Infos(Sparse(now, n));
    FillGapsStep(0, infos, n - 1);
    assert infos[..n] == infos;
    SparseNext(now, n);
    if n == 1 {
      assert infos[..0] == [];
      NothingFilled();
    } else {
      SparseBatch(now, n - 1);
      SparseRecorded(now, n - 1);
      assert infos[..n - 1] == Infos(Sparse(now, n - 1));
    }
  }

  lemma {:induction false} NothingFilled()
    ensures FillGaps(0, []) == (0, [])
  {
  }

  lemma {:induction false} SparseNext(now: nat, n: nat)
    requires 0 < n <= 1000
    ensures var x := ExtInfo(22 * n - 21, SparseTime(now, n - 1));
            (22 * n - 21, SparseList(now, n)) ==
            if n == 1 then Extend(0, [], x) else Extend(22 * n - 43, SparseList(now, n - 1), x)
  {
    hide Missing;
    if n == 1 {
      var x := ExtInfo(1, SparseTime(now, 0));
      assert [] + [] + [x] == [x];
    }
  }

  lemma {:induction false} SparseSorted(now: nat, n: nat)
    requires 0 < n <= 1000
    ensures SortByTsn(Infos(Sparse(now, n))) == Infos(Sparse(now, n))
  {
    hide SortByTsn;
    SparseRecorded(now, n);
    var infos := Infos(Sparse(now, n));
    SortSorts(infos);
    SortPermutes(infos);
    SortUnique(SortByTsn(infos), infos);
  }

  /** Numbers that did not arrive add just their statuses. */
  lemma {:induction false} MissingStatuses(ps: seq<ExtInfo>, fill: seq<ExtInfo>)
    requires forall i :: 0 <= i < |fill| ==> fill[i].timestamp == 0
    ensures Statuses(ps + fill) == Statuses(ps) + Repeat(NOT_RECEIVED, |fill|)
    ensures LastArrival(ps + fill) == LastArrival(ps)
  {
    if fill == [] {
      assert ps + fill == ps;
    } else {
      var front, x := fill[..|fill| - 1], fill[|fill| - 1];
      MissingStatuses(ps, front);
      assert ps + fill == (ps + front) + [x];
      DeltaBytesStep(ps + front, x);
      assert Repeat(NOT_RECEIVED, |fill|) == Repeat(NOT_RECEIVED, |front|) + [NOT_RECEIVED];
    }
  }

  /** One received status and 21 that were not, again and again. */
  function Pattern(n: nat): seq<Symbol>
    requires n > 0
  {
    if n == 1 then [SMALL_DELTA] else Pattern(n - 1) + Repeat(NOT_RECEIVED, 21) + [SMALL_DELTA]
  }

  lemma {:induction false} SparseStatuses(now: nat, n: nat)
    requires 0 < n <= 1000
    ensures Statuses(SparseList(now, n)) == Pattern(n)
    ensures LastArrival(SparseList(now, n)) == Some(SparseTime(now, n - 1))
  {
    if n == 1 {
      var x := ExtInfo(1, SparseTime(now, 0));
      assert [x] == [] + [x];
      DeltaBytesStep([], x);
      FirstDeltaSmall([], x.timestamp);
    } else {
      hide Missing, Repeat, Statuses, LastArrival, StatusOf;
      var before, fill := SparseList(now, n - 1), Missing(22 * n - 43, 22 * n - 21);
      var x := ExtInfo(22 * n - 21, SparseTime(now, n - 1));
      SparseStatuses(now, n - 1);
      TwentyOneMissing(n);
      MissingStatuses(before, fill);
      DeltaBytesStep(before + fill, x);
      SmallStep(before + fill, now, n);
    }
  }

  lemma {:induction false} TwentyOneMissing(n: nat)
    requires 1 < n <= 1000
    ensures var fill := Missing(22 * n - 43, 22 * n - 21);
            |fill| == 21 && forall i :: 0 <= i < 21 ==> fill[i].timestamp == 0
  {
  }

  lemma {:induction false} SmallStep(before: seq<ExtInfo>, now: nat, n: nat)
    requires n > 1 && LastArrival(before) == Some(SparseTime(now, n - 2))
    ensures forall x: ExtInfo :: x.timestamp == SparseTime(now, n - 1) ==> StatusOf(before, x) == SMALL_DELTA
  {
  }

  /** After a received status: 13 missing ones complete a vector, the rest start a run. */
  function AfterMissing(emitted: seq<Chunk>, j: nat): Packer {
    if j == 0 then Packer(emitted, [SMALL_DELTA], true, SMALL_DELTA, SMALL_DELTA)
    else if j < 13 then Packer(emitted, [SMALL_DELTA] + Repeat(NOT_RECEIVED, j), false, NOT_RECEIVED, SMALL_DELTA)
    else if j == 13 then Packer(emitted + [OneVector()], [], true, WITHOUT_DELTA, NOT_RECEIVED)
    else Packer(emitted + [OneVector()], Repeat(NOT_RECEIVED, j - 13), true, NOT_RECEIVED, NOT_RECEIVED)
  }

  function OneVector(): Chunk { StatusVector(false, [SMALL_DELTA] + Repeat(NOT_RECEIVED, 13)) }

  lemma {:induction false} RepeatOneMore(j: nat)
    ensures Repeat(NOT_RECEIVED, j) + [NOT_RECEIVED] == Repeat(NOT_RECEIVED, j + 1)
    ensures [SMALL_DELTA] + Repeat(NOT_RECEIVED, j) + [NOT_RECEIVED] == [SMALL_DELTA] + Repeat(NOT_RECEIVED, j + 1)
  {
  }

  lemma {:induction false} MissingStep(emitted: seq<Chunk>, j: nat)
    requires j < 21
    ensures Step(AfterMissing(emitted, j), NOT_RECEIVED) == AfterMissing(emitted, j + 1)
  {
    RepeatOneMore(j);
    if j == 12 {
      var s := [SMALL_DELTA] + Repeat(NOT_RECEIVED, 13);
      assert s[..14] == s && s[14..] == [];
    } else if j >= 13 {
      RepeatOneMore(j - 13);
      if j == 13 {
        assert [] + [NOT_RECEIVED] == Repeat(NOT_RECEIVED, 1);
      }
    }
  }

  lemma {:induction false} PackMissing(s: seq<Symbol>, emitted: seq<Chunk>, j: nat)
    requires Pack(s) == AfterMissing(emitted, 0) && j <= 21
    ensures Pack(s + Repeat(NOT_RECEIVED, j)) == AfterMissing(emitted, j)
  {
    hide Pack, Step, AfterMissing;
    if j == 0 {
      assert s + Repeat(NOT_RECEIVED, 0) == s;
    } else {
      PackMissing(s, emitted, j - 1);
      RepeatOneMore(j - 1);
      MissingStep(emitted, j - 1);
      PackStep(s + Repeat(NOT_RECEIVED, j - 1), NOT_RECEIVED, s + Repeat(NOT_RECEIVED, j));
    }
  }

  /** The next received status ends the run of eight. */
  lemma {:induction false} ReceivedStep(emitted: seq<Chunk>)
    ensures Step(AfterMissing(emitted, 21), SMALL_DELTA) ==
            AfterMissing(emitted + [OneVector()] + [RunLength(NOT_RECEIVED, 8)], 0)
  {
  }

  /** Every further period takes two chunks. */
  lemma {:induction false} PatternPacked(n: nat) returns (emitted: seq<Chunk>)
    requires n > 0
    ensures Pack(Pattern(n)) == AfterMissing(emitted, 0) && |emitted| == 2 * (n - 1)
  {
    hide Pack, Step, AfterMissing, Repeat, OneVector;
    if n == 1 {
      emitted := [];
      FirstStep();
    } else {
      var before := PatternPacked(n - 1);
      var s := Pattern(n - 1) + Repeat(NOT_RECEIVED, 21);
      PackMissing(Pattern(n - 1), before, 21);
      ReceivedStep(before);
      PackStep(s, SMALL_DELTA, Pattern(n));
      emitted := before + [OneVector()] + [RunLength(NOT_RECEIVED, 8)];
    }
  }

  lemma {:induction false} FirstStep()
    ensures Pack([SMALL_DELTA]) == AfterMissing([], 0)
  {
    PackStep([], SMALL_DELTA, [SMALL_DELTA]);
    assert Pack([]) == INITIAL;
  }

  lemma {:induction false} PatternChunks(n: nat)
    requires n > 0
    ensures |Chunks(Pattern(n))| == 2 * n - 1
  {
    hide Pack;
    var emitted := PatternPacked(n);
  }

  /**
   A run from a new responder with a media source whose first feedback does not fit: 22
   packets with 21 lost numbers between each two take 43 chunks, 102 bytes with the header.
   */
  lemma {:induction false} LostNumbersOverflow(media: uint32, now: nat)
    requires media != 0
    ensures var ps := Sparse(now, 22);
            && FirstDue(media, now, ps)
            && HeaderSize(Batch(0, Infos(ps)).1) + 2 * |Chunks(Statuses(Batch(0, Infos(ps)).1))| == 102
            && !Fits(Batch(0, Infos(ps)).1)
  {
    hide Due, Run, SortByTsn, FillGaps, Chunks, Statuses, Pattern, SparseList, DeltaBytes, FirstArrival, LastArrival, Triggered;
    var ps := Sparse(now, 22);
    LastIsDue(media, now, ps);
    SparseSorted(now, 22);
    SparseBatch(now, 22);
    SparseStatuses(now, 22);
    PatternChunks(22);
    ArrivalsAgree(SparseList(now, 22));
  }
}
