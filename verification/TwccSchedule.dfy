/**
 When feedbacks are made: the schedule of a whole run on the packets' positions and times,
 what waits in between, and the counter each feedback carries.
 */
module TwccSchedule {
  import opened Words
  import opened TwccDeltas
  import TwccBatch
  import opened TwccFeedback
  import opened TwccRecord
  import opened TwccPacker
  import opened TwccFormat
  import opened TwccCapacity
  import Responder = TwccResponder

  /** Packet k of a run makes a feedback: one more list is reported. */
  predicate Made(media: uint32, now: int, ps: seq<Packet>, k: nat)
    requires k < |ps|
  {
    |Lists(media, now, ps[..k + 1])| > |Lists(media, now, ps[..k])|
  }

  lemma {:induction false} MadeIsDue(media: uint32, now: int, ps: seq<Packet>, k: nat)
    requires k < |ps|
    ensures Made(media, now, ps, k) <==> Due(Run(media, now, ps[..k]), media, ps[k])
  {
    hide Due, Run, Triggered;
    assert ps[..k + 1][..k] == ps[..k];
  }

  /** What is waiting after k packets is the last n of them, and nothing was made since time t. */
  predicate Waiting(media: uint32, now: int, ps: seq<Packet>, k: nat, n: nat, t: int)
    requires k <= |ps|
  {
    && n <= k && Run(media, now, ps[..k]).extInfo == AllRecorded(media, now, ps[..k])[k - n..]
    && Run(media, now, ps[..k]).lastReport == t
  }

  /** One more packet waits, unless it makes a feedback, after which nothing does. */
  lemma {:induction false} WaitingNext(media: uint32, now: int, ps: seq<Packet>, k: nat, n: nat, t: int)
    requires k < |ps| && Waiting(media, now, ps, k, n, t)
    ensures Made(media, now, ps, k) ==> Waiting(media, now, ps, k + 1, 0, ps[k].time)
    ensures !Made(media, now, ps, k) ==> Waiting(media, now, ps, k + 1, n + 1, t)
  {
    hide Due, Run, Recorded, Triggered, TwccBatch.NextCycles;
    MadeIsDue(media, now, ps, k);
    RunNext(media, now, ps, k);
    assert ps[..k + 1][..k] == ps[..k];
    var r := Run(media, now, ps[..k]);
    var all := AllRecorded(media, now, ps[..k]);
    assert AllRecorded(media, now, ps[..k + 1]) == all + [Recorded(r, ps[k])];
    assert (all + [Recorded(r, ps[k])])[k - n..] == all[k - n..] + [Recorded(r, ps[k])];
  }

  lemma {:induction false} WaitingAfter(media: uint32, now: int, ps: seq<Packet>, j: nat, k: nat)
    requires j < k <= |ps| && Made(media, now, ps, j)
    requires forall i :: j < i < k ==> !Made(media, now, ps, i)
    ensures Waiting(media, now, ps, k, k - j - 1, ps[j].time)
    decreases k
  {
    hide Made, Waiting;
    if k == j + 1 {
      var n, t := WaitingSome(media, now, ps, j);
      WaitingNext(media, now, ps, j, n, t);
    } else {
      WaitingAfter(media, now, ps, j, k - 1);
      WaitingNext(media, now, ps, k - 1, k - j - 2, ps[j].time);
    }
  }

  lemma {:induction false} WaitingSome(media: uint32, now: int, ps: seq<Packet>, k: nat) returns (n: nat, t: int)
    requires k <= |ps|
    ensures Waiting(media, now, ps, k, n, t)
  {
    if k == 0 {
      n, t := 0, now + 100_000_000;
    } else {
      hide Waiting, Made;
      n, t := WaitingSome(media, now, ps, k - 1);
      WaitingNext(media, now, ps, k - 1, n, t);
      n, t := if Made(media, now, ps, k - 1) then 0 else n + 1, if Made(media, now, ps, k - 1) then ps[k - 1].time else t;
    }
  }

  lemma {:induction false} WaitingAtFirst(media: uint32, now: int, ps: seq<Packet>, k: nat)
    requires k <= |ps| && forall i :: 0 <= i < k ==> !Made(media, now, ps, i)
    ensures Waiting(media, now, ps, k, k, now + 100_000_000)
  {
    if k > 0 {
      hide Waiting, Made;
      WaitingAtFirst(media, now, ps, k - 1);
      WaitingNext(media, now, ps, k - 1, k - 1, now + 100_000_000);
    }
  }

  lemma {:induction false} DueWhenWaiting(media: uint32, now: int, ps: seq<Packet>, k: nat, n: nat, t: int)
    requires k < |ps| && Waiting(media, now, ps, k, n, t)
    ensures Made(media, now, ps, k) <==>
            || (n + 1 > 20 && media != 0 && ps[k].time - t >= 100_000_000)
            || n + 1 > 100
            || (ps[k].marker && ps[k].time - t >= 500_000_000)
  {
    hide Run, Made, AllRecorded;
    MadeIsDue(media, now, ps, k);
    assert |AllRecorded(media, now, ps[..k])[k - n..]| == n;
  }

  /**
   After the feedback made at packet j the next one is made at packet k exactly when more
   than 20 packets came since, the media source is known and a tenth of a second went by;
   or more than 100 came; or packet k is marked and half a second went by.
   */
  lemma {:induction false} NextFeedback(media: uint32, now: int, ps: seq<Packet>, j: nat, k: nat)
    requires j < k < |ps| && Made(media, now, ps, j)
    requires forall i :: j < i < k ==> !Made(media, now, ps, i)
    ensures Made(media, now, ps, k) <==>
            || (k - j > 20 && media != 0 && ps[k].time - ps[j].time >= 100_000_000)
            || k - j > 100
            || (ps[k].marker && ps[k].time - ps[j].time >= 500_000_000)
  {
    hide Made, Waiting;
    WaitingAfter(media, now, ps, j, k);
    DueWhenWaiting(media, now, ps, k, k - j - 1, ps[j].time);
  }

  /** The first feedback counts from the first packet, and from a tenth of a second after the start. */
  lemma {:induction false} FirstFeedback(media: uint32, now: int, ps: seq<Packet>, k: nat)
    requires k < |ps| && forall i :: 0 <= i < k ==> !Made(media, now, ps, i)
    ensures Made(media, now, ps, k) <==>
            || (k + 1 > 20 && media != 0 && ps[k].time - now >= 200_000_000)
            || k + 1 > 100
            || (ps[k].marker && ps[k].time - now >= 600_000_000)
  {
    hide Made, Waiting;
    WaitingAtFirst(media, now, ps, k);
    DueWhenWaiting(media, now, ps, k, k, now + 100_000_000);
  }

  /** A feedback is built from exactly the packets recorded since the one before. */
  lemma {:induction false} FeedbackCovers(media: uint32, now: int, ps: seq<Packet>, j: nat, k: nat)
    requires j < k < |ps| && Made(media, now, ps, j) && Made(media, now, ps, k)
    requires forall i :: j < i < k ==> !Made(media, now, ps, i)
    ensures Batches(media, now, ps[..k + 1]) ==
            Batches(media, now, ps[..k]) + [AllRecorded(media, now, ps[..k + 1])[j + 1..]]
  {
    hide Due, Run, Recorded, Triggered, Made, AllRecorded;
    WaitingAfter(media, now, ps, j, k);
    MadeIsDue(media, now, ps, k);
    RecordedLast(media, now, ps, k);
    assert ps[..k + 1][..k] == ps[..k];
    var all := AllRecorded(media, now, ps[..k]);
    var x := Recorded(Run(media, now, ps[..k]), ps[k]);
    assert (all + [x])[j + 1..] == all[j + 1..] + [x];
  }

  lemma {:induction false} RecordedLast(media: uint32, now: int, ps: seq<Packet>, k: nat)
    requires k < |ps|
    ensures AllRecorded(media, now, ps[..k + 1]) ==
            AllRecorded(media, now, ps[..k]) + [Recorded(Run(media, now, ps[..k]), ps[k])]
  {
    assert ps[..k + 1][..k] == ps[..k];
  }

  // ---------------------------------------------------------------- the packets of a run

  /** The packets that a responder gives out over a run, and the counter it is left with. */
  function Emitted(sender: uint32, media: uint32, now: int, ps: seq<Packet>): (seq<seq<uint8>>, uint8) {
    if ps == [] then ([], 0)
    else
      var front, p := ps[..|ps| - 1], ps[|ps| - 1];
      var (sent, count) := Emitted(sender, media, now, front);
      var r := Run(media, now, front);
      if Due(r, media, p) then
        (sent + [FeedbackBytes(sender, media, count, Triggered(r, p).1)], Responder.NextCount(count, Triggered(r, p).1))
      else (sent, count)
  }

  predicate AllHaveArrivals(lists: seq<seq<ExtInfo>>) {
    forall i :: 0 <= i < |lists| ==> FirstArrival(lists[i]).Some?
  }

  /** The i-th feedback carries the i-th list and counts i, modulo 256. */
  lemma {:induction false} CountedInOrder(sender: uint32, media: uint32, now: int, ps: seq<Packet>)
    requires AllHaveArrivals(Lists(media, now, ps))
    ensures var (sent, count) := Emitted(sender, media, now, ps);
            && |sent| == |Lists(media, now, ps)| && count == Wrap8(|sent|)
            && forall i :: 0 <= i < |sent| ==> sent[i] == FeedbackBytes(sender, media, Wrap8(i), Lists(media, now, ps)[i])
  {
    hide Run, Due, FeedbackBytes, Triggered;
    if ps != [] {
      var front, p := ps[..|ps| - 1], ps[|ps| - 1];
      var r := Run(media, now, front);
      var lists := Lists(media, now, front);
      assert Due(r, media, p) ==> Lists(media, now, ps)[|lists|] == Triggered(r, p).1;
      assert forall i :: 0 <= i < |lists| ==> lists[i] == Lists(media, now, ps)[i];
      CountedInOrder(sender, media, now, front);
    }
  }

  /**
   Over a whole run the i-th packet given out reads back as the i-th list, from this sender
   and about this media source, with the count i modulo 256, exactly when its final flush
   lost no status.
   */
  lemma {:induction false} RunReadsBack(sender: uint32, media: uint32, now: int, ps: seq<Packet>, i: nat)
    requires AllHaveArrivals(Lists(media, now, ps)) && i < |Lists(media, now, ps)|
    requires var list := Lists(media, now, ps)[i];
             0 < |list| < 0x2000 && Responder.Fits(list)
    ensures var list, sent := Lists(media, now, ps)[i], Emitted(sender, media, now, ps).0;
            && i < |sent|
            && (ReadFeedback(sent[i]) == Some(Expected(sender, media, Wrap8(i), list)) <==> LeftoverIntact(Pack(Statuses(list))))
  {
    hide Lists, Emitted, FeedbackBytes, ReadFeedback, Statuses, Pack, LeftoverIntact, Expected;
    var list := Lists(media, now, ps)[i];
    CountedInOrder(sender, media, now, ps);
    FittingReadsBack(sender, media, Wrap8(i), list);
  }

  lemma {:induction false} ChunkBytesLength(cs: seq<Chunk>)
    ensures |ChunkBytes(cs)| == 2 * |cs|
  {
    if cs != [] {
      ChunkBytesLength(cs[..|cs| - 1]);
    }
  }

  lemma {:induction false} BodyLength(sender: uint32, media: uint32, count: uint8, list: seq<ExtInfo>)
    requires |ChunkBytes(Chunks(Statuses(list)))| == 2 * |Chunks(Statuses(list))| && Responder.Fits(list)
    ensures |Body(sender, media, count, list)| <= 300
  {
    hide Chunks, ChunkBytes, DeltaBytes, Statuses;
  }

  lemma {:induction false} FittingReadsBack(sender: uint32, media: uint32, count: uint8, list: seq<ExtInfo>)
    requires FirstArrival(list).Some? && 0 < |list| < 0x2000 && Responder.Fits(list)
    ensures ReadFeedback(FeedbackBytes(sender, media, count, list)) == Some(Expected(sender, media, count, list))
            <==> LeftoverIntact(Pack(Statuses(list)))
  {
    hide FeedbackBytes, ReadFeedback, Expected, Chunks, Pack, LeftoverIntact, DeltaBytes, Statuses;
    ShortRunsFit(list);
    ChunkBytesLength(Chunks(Statuses(list)));
    BodyLength(sender, media, count, list);
    FeedbackRoundTrip(sender, media, count, list);
  }
}
