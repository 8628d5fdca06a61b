/**
 From arrival times to packet statuses and receive deltas.  Each received packet is
 described by the time since the previous received one, in units of 250 microseconds;
 the first by the time since the reference, a multiple of 64 milliseconds.
 */
module TwccDeltas {
  import opened Words
  import opened TwccFormat

  /** A transport-wide number and its arrival in microseconds, zero when nothing arrived. */
  datatype ExtInfo = ExtInfo(tsn: uint32, timestamp: int)

  const REFERENCE_UNIT := 64_000
  const DELTA_UNIT := 250

  function ReferenceTime(timestamp: int): int { TruncDiv(timestamp, REFERENCE_UNIT) }

  function LastArrival(pkts: seq<ExtInfo>): Option<int> {
    if pkts == [] then None
    else if pkts[|pkts| - 1].timestamp != 0 then Some(pkts[|pkts| - 1].timestamp)
    else LastArrival(pkts[..|pkts| - 1])
  }

  function FirstArrival(pkts: seq<ExtInfo>): Option<int> {
    if pkts == [] then None
    else match FirstArrival(pkts[..|pkts| - 1])
      case Some(t) => Some(t)
      case None => if pkts[|pkts| - 1].timestamp != 0 then Some(pkts[|pkts| - 1].timestamp) else None
  }

  /** The time a packet's delta is counted from. */
  function BaseTime(before: seq<ExtInfo>, timestamp: int): int {
    match LastArrival(before)
    case Some(t) => t
    case None => ReferenceTime(timestamp) * REFERENCE_UNIT
  }

  function Delta(before: seq<ExtInfo>, timestamp: int): int {
    TruncDiv(timestamp - BaseTime(before, timestamp), DELTA_UNIT)
  }

  predicate IsSmall(delta: int) { 0 <= delta <= 255 }

  /** The cast to int16 and the correction that follows it, which looks at the sign of the cast. */
  function Saturate(delta: int): int {
    if ToInt16(delta) == delta then delta
    else if ToInt16(delta) > 0 then 0x7FFF
    else -0x8000
  }

  function DeltaField(delta: int): seq<uint8> {
    if IsSmall(delta) then [delta] else U16Bytes(Wrap16(Saturate(delta)))
  }

  function Written(delta: int): int { if IsSmall(delta) then delta else Saturate(delta) }

  function StatusOf(before: seq<ExtInfo>, p: ExtInfo): Symbol {
    if p.timestamp == 0 then NOT_RECEIVED
    else if IsSmall(Delta(before, p.timestamp)) then SMALL_DELTA
    else LARGE_DELTA
  }

  function Statuses(pkts: seq<ExtInfo>): (r: seq<Symbol>)
    ensures |r| == |pkts|
  {
    if pkts == [] then []
    else Statuses(pkts[..|pkts| - 1]) + [StatusOf(pkts[..|pkts| - 1], pkts[|pkts| - 1])]
  }

  /** The delta of every received packet, before it is written. */
  function Deltas(pkts: seq<ExtInfo>): seq<int> {
    if pkts == [] then []
    else
      var before, p := pkts[..|pkts| - 1], pkts[|pkts| - 1];
      Deltas(before) + if p.timestamp == 0 then [] else [Delta(before, p.timestamp)]
  }

  function WrittenDeltas(ds: seq<int>): (r: seq<int>)
    ensures |r| == |ds|
  {
    seq(|ds|, i requires 0 <= i < |ds| => Written(ds[i]))
  }

  function DeltaBytes(pkts: seq<ExtInfo>): seq<uint8> { FlatMap(DeltaField, Deltas(pkts)) }

  predicate FitInt16(ds: seq<int>) { forall i :: 0 <= i < |ds| ==> -0x8000 <= ds[i] < 0x8000 }

  // ---------------------------------------------------------------- round trip

  lemma {:induction false} StatusesReceived(pkts: seq<ExtInfo>)
    ensures forall i :: 0 <= i < |pkts| ==> Statuses(pkts)[i] < WITHOUT_DELTA
    ensures forall i :: 0 <= i < |pkts| ==> (Statuses(pkts)[i] == NOT_RECEIVED <==> pkts[i].timestamp == 0)
  {
    if pkts == [] {
    } else {
      StatusesReceived(pkts[..|pkts| - 1]);
    }
  }

  /** A delta reader that used up its bytes goes on with whatever is appended to them. */
  lemma {:induction false} ReadDeltasOn(s: seq<Symbol>, b: seq<uint8>, ds: seq<int>, more: seq<Symbol>, tail: seq<uint8>)
    requires ReadDeltas(s, b) == Some((ds, []))
    ensures ReadDeltas(s + more, b + tail) ==
            match ReadDeltas(more, tail)
            case None => None
            case Some(r) => Some((ds + r.0, r.1))
  {
    if s == [] {
      assert s + more == more && b + tail == tail;
      match ReadDeltas(more, tail)
      case None =>
      case Some(r) => assert [] + r.0 == r.0;
    } else {
      var k := if s[0] == SMALL_DELTA then 1 else if s[0] == LARGE_DELTA then 2 else 0;
      var first := if k == 0 then [] else ds[..1];
      var rest := ReadDeltas(s[1..], b[k..]).value.0;
      ReadDeltasOn(s[1..], b[k..], rest, more, tail);
      assert (s + more)[1..] == s[1..] + more;
      assert (b + tail)[k..] == b[k..] + tail;
      assert ds == first + rest;
      match ReadDeltas(more, tail)
      case None =>
      case Some(r) => assert first + (rest + r.0) == ds + r.0;
    }
  }

  lemma {:induction false} ReadOneDelta(d: int)
    ensures ReadDeltas([if IsSmall(d) then SMALL_DELTA else LARGE_DELTA], DeltaField(d)) == Some(([Written(d)], []))
  {
    var s: seq<Symbol> := [if IsSmall(d) then SMALL_DELTA else LARGE_DELTA];
    var field := DeltaField(d);
    assert s[1..] == [];
    if IsSmall(d) {
      assert field[1..] == [] && [field[0] as int] + [] == [d];
    } else {
      var w := Wrap16(Saturate(d));
      assert U16At(field, 0) == w;
      assert ToInt16(w) == Saturate(d);
      assert field[2..] == [] && [Saturate(d)] + [] == [Written(d)];
    }
  }

  /** Reading the delta bytes under the statuses yields every delta as written, and uses up the bytes. */
  lemma {:induction false} DeltasRoundTrip(pkts: seq<ExtInfo>)
    ensures ReadDeltas(Statuses(pkts), DeltaBytes(pkts)) == Some((WrittenDeltas(Deltas(pkts)), []))
  {
    if pkts == [] {
    } else {
      var before, p := pkts[..|pkts| - 1], pkts[|pkts| - 1];
      var more := [StatusOf(before, p)];
      DeltasRoundTrip(before);
      if p.timestamp == 0 {
        ReadDeltasOn(Statuses(before), DeltaBytes(before), WrittenDeltas(Deltas(before)), more, []);
        assert ReadDeltas(more, []) == Some(([], []));
        assert Deltas(pkts) == Deltas(before);
        assert DeltaBytes(before) + [] == DeltaBytes(before);
        assert WrittenDeltas(Deltas(before)) + [] == WrittenDeltas(Deltas(before));
      } else {
        var d := Delta(before, p.timestamp);
        ReadDeltasOn(Statuses(before), DeltaBytes(before), WrittenDeltas(Deltas(before)), more, DeltaField(d));
        ReadOneDelta(d);
        assert Deltas(pkts)[..|Deltas(before)|] == Deltas(before);
        assert WrittenDeltas(Deltas(pkts)) == WrittenDeltas(Deltas(before)) + [Written(d)];
      }
    }
  }

  lemma {:induction false} WrittenExact(ds: seq<int>)
    ensures WrittenDeltas(ds) == ds <==> FitInt16(ds)
  {
    if FitInt16(ds) {
      assert WrittenDeltas(ds) == ds;
    } else {
      var i :| 0 <= i < |ds| && !(-0x8000 <= ds[i] < 0x8000);
      assert WrittenDeltas(ds)[i] != ds[i];
    }
  }

  lemma {:induction false} PrefixStatuses(pkts: seq<ExtInfo>, k: nat)
    requires k <= |pkts|
    ensures Statuses(pkts[..k]) == Statuses(pkts)[..k]
    ensures |DeltaBytes(pkts[..k])| <= |DeltaBytes(pkts)|
    decreases |pkts| - k
  {
    hide *;
    if k == |pkts| {
      assert pkts[..k] == pkts;
    } else {
      PrefixStatuses(pkts, k + 1);
      assert pkts[..k + 1] == pkts[..k] + [pkts[k]];
      DeltaBytesStep(pkts[..k], pkts[k]);
      FrontOfPrefix(Statuses(pkts), Statuses(pkts[..k]), StatusOf(pkts[..k], pkts[k]));
    }
  }

  lemma {:induction false} FrontOfPrefix<T>(s: seq<T>, front: seq<T>, x: T)
    requires |front| < |s| && s[..|front| + 1] == front + [x]
    ensures s[..|front|] == front
  {
    assert s[..|front| + 1][..|front|] == s[..|front|];
  }

  /** What one more packet adds. */
  lemma {:induction false} DeltaBytesStep(before: seq<ExtInfo>, p: ExtInfo)
    ensures DeltaBytes(before + [p]) ==
            DeltaBytes(before) + if p.timestamp == 0 then [] else DeltaField(Delta(before, p.timestamp))
    ensures Statuses(before + [p]) == Statuses(before) + [StatusOf(before, p)]
    ensures LastArrival(before + [p]) == if p.timestamp != 0 then Some(p.timestamp) else LastArrival(before)
    ensures FirstArrival(before + [p]) ==
            match FirstArrival(before)
            case Some(t) => Some(t)
            case None => if p.timestamp != 0 then Some(p.timestamp) else None
  {
    var pkts := before + [p];
    assert pkts[..|before|] == before;
    if p.timestamp != 0 {
      assert Deltas(pkts)[..|Deltas(before)|] == Deltas(before);
    } else {
      assert Deltas(pkts) == Deltas(before);
    }
  }

  // ---------------------------------------------------------------- saturation

  function Clamp(delta: int): int {
    if delta > 0x7FFF then 0x7FFF else if delta < -0x8000 then -0x8000 else delta
  }

  /**
   The correction clamps a delta that fits sixteen bits, and one outside them exactly
   when the truncated value is positive just where the delta itself is.
   */
  lemma {:induction false} SaturateClamps(delta: int)
    ensures Saturate(delta) == Clamp(delta) <==>
            (-0x8000 <= delta < 0x8000 || (ToInt16(delta) > 0 <==> delta > 0))
  {
  }

  /** The first overflow, 8.192 seconds late, is reported as the largest step back. */
  lemma {:induction false} SaturateFlipsSign(delta: int)
    requires 0x8000 <= delta <= 0x1_0000
    ensures Saturate(delta) == -0x8000
  {
  }

  // ---------------------------------------------------------------- arrival times

  function Sum(ds: seq<int>): int {
    if ds == [] then 0 else Sum(ds[..|ds| - 1]) + ds[|ds| - 1]
  }

  /** The arrival a reader rebuilds from the reference time and the deltas so far. */
  function Rebuilt(reference: int, ds: seq<int>): int { reference * 64_000 + 250 * Sum(ds) }

  function Magnitude(x: int): nat { if x < 0 then -x else x }

  lemma {:induction false} ArrivalsAgree(pkts: seq<ExtInfo>)
    ensures FirstArrival(pkts).Some? <==> LastArrival(pkts).Some?
    ensures FirstArrival(pkts).Some? <==> Deltas(pkts) != []
  {
    if pkts == [] {
    } else {
      ArrivalsAgree(pkts[..|pkts| - 1]);
    }
  }

  /**
   After k received packets the time rebuilt from the unsaturated deltas is within
   249 * k microseconds of the last one's arrival.
   */
  lemma {:induction false} DriftBound(pkts: seq<ExtInfo>)
    requires LastArrival(pkts).Some?
    ensures FirstArrival(pkts).Some?
    ensures Magnitude(LastArrival(pkts).value - Rebuilt(ReferenceTime(FirstArrival(pkts).value), Deltas(pkts)))
         <= 249 * |Deltas(pkts)|
  {
    ArrivalsAgree(pkts);
    var before, p := pkts[..|pkts| - 1], pkts[|pkts| - 1];
    ArrivalsAgree(before);
    if p.timestamp == 0 {
      DriftBound(before);
      assert Deltas(pkts) == Deltas(before);
    } else {
      var d := Delta(before, p.timestamp);
      TruncDivError(p.timestamp - BaseTime(before, p.timestamp), DELTA_UNIT);
      assert Deltas(pkts)[..|Deltas(before)|] == Deltas(before);
      assert Sum(Deltas(pkts)) == Sum(Deltas(before)) + d;
      if LastArrival(before).Some? {
        DriftBound(before);
        assert FirstArrival(pkts) == FirstArrival(before);
      } else {
        assert Deltas(before) == [];
      }
    }
  }

  lemma {:induction false} PrefixDeltas(pkts: seq<ExtInfo>, k: nat)
    requires k <= |pkts|
    ensures Deltas(pkts[..k]) <= Deltas(pkts)
    ensures FirstArrival(pkts[..k]).Some? ==> FirstArrival(pkts) == FirstArrival(pkts[..k])
    decreases |pkts| - k
  {
    if k == |pkts| {
      assert pkts[..k] == pkts;
    } else {
      PrefixDeltas(pkts, k + 1);
      assert pkts[..k + 1][..k] == pkts[..k];
    }
  }

  /**
   A reader's clock: with every delta in sixteen bits, the time it rebuilds for packet k
   from the written reference and the first written deltas is within 249 microseconds per
   received packet of the recorded arrival.
   */
  lemma {:induction false} ArrivalTimeBound(pkts: seq<ExtInfo>, k: nat)
    requires k < |pkts| && pkts[k].timestamp != 0
    requires FitInt16(Deltas(pkts))
    ensures FirstArrival(pkts).Some?
    ensures var n := |Deltas(pkts[..k + 1])|;
            && 0 < n <= |Deltas(pkts)|
            && Magnitude(pkts[k].timestamp
                         - Rebuilt(ReferenceTime(FirstArrival(pkts).value), WrittenDeltas(Deltas(pkts))[..n])) <= 249 * n
  {
    var upTo := pkts[..k + 1];
    WrittenExact(Deltas(pkts));
    PrefixDeltas(pkts, k + 1);
    ArrivalsAgree(upTo);
    DriftBound(upTo);
    assert Deltas(pkts)[..|Deltas(upTo)|] == Deltas(upTo);
  }

  /** The first received packet always takes a one-byte delta. */
  lemma {:induction false} FirstDeltaSmall(before: seq<ExtInfo>, timestamp: int)
    requires LastArrival(before) == None && timestamp >= 0
    ensures IsSmall(Delta(before, timestamp))
  {
  }

  /** n packets that arrive at even intervals. */
  function Spaced(n: nat, gap: nat): seq<ExtInfo>
    requires n < 0x1_0000_0000
  {
    seq(n, i requires 0 <= i < n => ExtInfo(i, (i + 1) * gap))
  }

  lemma {:induction false} SpacedLast(n: nat, gap: nat)
    requires 0 < n < 0x1_0000_0000 && gap > 0
    ensures Spaced(n, gap)[..n - 1] == Spaced(n - 1, gap)
    ensures LastArrival(Spaced(n, gap)) == Some(n * gap)
  {
    assert Spaced(n, gap)[n - 1].timestamp == n * gap;
  }

  /** The bound on the rebuilt time is attained: packets 249 microseconds apart all seem simultaneous. */
  lemma {:induction false} DriftAttained(n: nat)
    requires 0 < n < 0x1_0000_0000
    ensures var pkts := Spaced(n, 249);
            && |Deltas(pkts)| == n
            && LastArrival(pkts) == Some(249 * n)
            && FirstArrival(pkts) == Some(249)
            && Rebuilt(ReferenceTime(249), Deltas(pkts)) == 0
  {
    var pkts := Spaced(n, 249);
    SpacedLast(n, 249);
    assert pkts[n - 1].timestamp == 249 * n;
    if n == 1 {
      assert pkts[..0] == [];
      assert Deltas(pkts) == [0];
      assert Sum([0]) == Sum([]) + 0;
    } else {
      hide Spaced, Sum, Delta;
      DriftAttained(n - 1);
      SpacedLast(n - 1, 249);
      SameGap(Spaced(n - 1, 249), n);
      SumAppend(Deltas(Spaced(n - 1, 249)), 0);
    }
  }

  /** A packet 249 microseconds after the last one has a delta of zero. */
  lemma {:induction false} SameGap(before: seq<ExtInfo>, n: nat)
    requires n > 0 && LastArrival(before) == Some(249 * (n - 1))
    ensures Delta(before, 249 * n) == 0
  {
  }

  lemma {:induction false} SumAppend(ds: seq<int>, d: int)
    ensures Sum(ds + [d]) == Sum(ds) + d
  {
    assert (ds + [d])[..|ds|] == ds;
  }

  // ---------------------------------------------------------------- size

  lemma {:induction false} DeltaBytesBound(pkts: seq<ExtInfo>)
    requires forall i :: 0 <= i < |pkts| ==> pkts[i].timestamp >= 0
    ensures |DeltaBytes(pkts)| <= if Deltas(pkts) == [] then 0 else 2 * |Deltas(pkts)| - 1
  {
    if pkts == [] {
    } else {
      var before, p := pkts[..|pkts| - 1], pkts[|pkts| - 1];
      DeltaBytesBound(before);
      if p.timestamp == 0 {
        assert Deltas(pkts) == Deltas(before);
      } else {
        var d := Delta(before, p.timestamp);
        assert Deltas(pkts)[..|Deltas(before)|] == Deltas(before);
        assert DeltaBytes(pkts) == DeltaBytes(before) + DeltaField(d);
        if Deltas(before) == [] {
          ArrivalsAgree(before);
          FirstDeltaSmall(before, p.timestamp);
        }
      }
    }
  }

  /** The bound is attained: packets 64 milliseconds apart take two bytes each after the first. */
  lemma {:induction false} DeltaBytesAttained(n: nat)
    requires 0 < n < 0x1_0000_0000
    ensures |DeltaBytes(Spaced(n, 64_000))| == 2 * n - 1
  {
    var pkts := Spaced(n, 64_000);
    SpacedLast(n, 64_000);
    if n == 1 {
      assert pkts[..0] == [];
      assert Deltas(pkts) == [0];
      assert FlatMap(DeltaField, [0]) == FlatMap(DeltaField, []) + DeltaField(0);
    } else {
      DeltaBytesAttained(n - 1);
      SpacedLast(n - 1, 64_000);
      var front := Deltas(Spaced(n - 1, 64_000));
      assert Deltas(pkts) == front + [256];
      assert Deltas(pkts)[..|front|] == front;
    }
  }
}
