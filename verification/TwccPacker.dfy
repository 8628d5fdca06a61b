/**
 The greedy packing of packet statuses into chunks: the state the builder's main loop
 carries from one packet to the next, as a value, and what every step keeps.
 */
module TwccPacker {
  import opened Words
  import opened TwccFormat

  /**
   Chunks already written, statuses not yet written, and the three variables the loop
   keeps about the latter: whether they are all alike, the last one, and the largest.
   */
  datatype Packer = Packer(
    emitted: seq<Chunk>,
    pending: seq<Symbol>,
    same: bool,
    last: Symbol,
    max: Symbol)

  const INITIAL := Packer([], [], true, WITHOUT_DELTA, NOT_RECEIVED)

  predicate Uniform(s: seq<Symbol>) {
    forall i, j :: 0 <= i < |s| && 0 <= j < |s| ==> s[i] == s[j]
  }

  function MaxOf(s: seq<Symbol>): Symbol {
    if s == [] then NOT_RECEIVED
    else if s[|s| - 1] > MaxOf(s[..|s| - 1]) then s[|s| - 1] else MaxOf(s[..|s| - 1])
  }

  function LastOf(s: seq<Symbol>): Symbol {
    if s == [] then WITHOUT_DELTA else s[|s| - 1]
  }

  /** A status that differs ends a long enough run, or makes a short one mixed. */
  function CloseRun(p: Packer, status: Symbol): Packer {
    if p.same && status != p.last && p.last != WITHOUT_DELTA then
      if |p.pending| > 7 then
        Packer(p.emitted + [RunLength(p.last, |p.pending|)], [], true, WITHOUT_DELTA, NOT_RECEIVED)
      else
        p.(same := false)
    else p
  }

  function Append(p: Packer, status: Symbol): Packer {
    Packer(p.emitted, p.pending + [status], p.same, status, if status > p.max then status else p.max)
  }

  /** Enough mixed statuses fill a vector chunk: seven with a large delta among them, else fourteen. */
  function FillVector(p: Packer): Packer {
    if !p.same && p.max == LARGE_DELTA && |p.pending| > 6 then
      var rest := p.pending[7..];
      Packer(p.emitted + [StatusVector(true, p.pending[..7])], rest, Uniform(rest), LastOf(rest), MaxOf(rest))
    else if !p.same && |p.pending| > 13 then
      Packer(p.emitted + [StatusVector(false, p.pending[..14])], p.pending[14..], true, WITHOUT_DELTA, NOT_RECEIVED)
    else p
  }

  function Step(p: Packer, status: Symbol): Packer {
    FillVector(Append(CloseRun(p, status), status))
  }

  function Pack(statuses: seq<Symbol>): Packer {
    if statuses == [] then INITIAL
    else Step(Pack(statuses[..|statuses| - 1]), statuses[|statuses| - 1])
  }

  /**
   The chunk written for the statuses left at the end.  The loops that fill a vector
   compare their index with the length of a queue that each turn shortens, so only the
   first half of a mixed leftover is written, rounded up.
   */
  function Leftover(p: Packer): seq<Chunk> {
    if p.pending == [] then []
    else if p.same then [RunLength(p.last, |p.pending|)]
    else [StatusVector(p.max == LARGE_DELTA, p.pending[..(|p.pending| + 1) / 2])]
  }

  function Chunks(statuses: seq<Symbol>): seq<Chunk> {
    Pack(statuses).emitted + Leftover(Pack(statuses))
  }

  // ---------------------------------------------------------------- invariant

  /** A chunk written before the end holds at least seven statuses and can be read back. */
  predicate FullChunk(c: Chunk) {
    match c
    case RunLength(_, n) => n > 7
    case StatusVector(two, s) => |s| == Capacity(two) && Below(s, Base(two))
  }

  predicate Received(s: seq<Symbol>) { forall i :: 0 <= i < |s| ==> s[i] < WITHOUT_DELTA }

  predicate Summarised(p: Packer) {
    && (p.same <==> Uniform(p.pending))
    && p.last == LastOf(p.pending)
    && p.max == MaxOf(p.pending)
  }

  /** What the main loop keeps: the chunks written and the statuses pending are the statuses processed. */
  predicate Invariant(p: Packer, statuses: seq<Symbol>) {
    && Expand(p.emitted) + p.pending == statuses
    && (forall i :: 0 <= i < |p.emitted| ==> FullChunk(p.emitted[i]))
    && Received(p.pending)
    && Summarised(p)
    && (!p.same ==> |p.pending| <= if p.max == LARGE_DELTA then 7 else 13)
  }

  lemma {:induction false} MaxIsMax(s: seq<Symbol>)
    ensures forall i :: 0 <= i < |s| ==> s[i] <= MaxOf(s)
    ensures s != [] ==> MaxOf(s) in s
  {
    if s == [] {
    } else {
      MaxIsMax(s[..|s| - 1]);
    }
  }

  lemma {:induction false} ExpandAppend(cs: seq<Chunk>, c: Chunk)
    ensures Expand(cs + [c]) == Expand(cs) + Symbols(c)
  {
    assert (cs + [c])[..|cs|] == cs;
  }

  lemma {:induction false} UniformSnoc(s: seq<Symbol>, x: Symbol)
    ensures Uniform(s + [x]) <==> Uniform(s) && (s == [] || x == LastOf(s))
  {
    var t := s + [x];
    assert forall i :: 0 <= i < |s| ==> t[i] == s[i];
    assert t[|s|] == x;
    if Uniform(t) && s != [] {
      assert t[|s| - 1] == t[|s|];
    }
  }

  /** The state between closing a run and filling a vector. */
  predicate Midway(p: Packer, statuses: seq<Symbol>) {
    && Expand(p.emitted) + p.pending == statuses
    && (forall i :: 0 <= i < |p.emitted| ==> FullChunk(p.emitted[i]))
    && Received(p.pending)
    && Summarised(p)
    && (!p.same ==> |p.pending| <= 14)
  }

  lemma {:induction false} CloseRunKeeps(p: Packer, statuses: seq<Symbol>, status: Symbol)
    requires Invariant(p, statuses) && status < WITHOUT_DELTA
    ensures var q := CloseRun(p, status);
            && Expand(q.emitted) + q.pending == statuses
            && (forall i :: 0 <= i < |q.emitted| ==> FullChunk(q.emitted[i]))
            && Received(q.pending)
            && q.last == LastOf(q.pending) && q.max == MaxOf(q.pending)
            && (q.same <==> Uniform(q.pending + [status]))
            && (!q.same ==> |q.pending| <= 13)
            && (!q.same && q.max == LARGE_DELTA ==> |q.pending| <= 7)
  {
    hide Expand, Uniform, MaxOf, Received, Below, Repeat;
    var n := |p.pending|;
    UniformSnoc(p.pending, status);
    LastReceived(p.pending);
    NothingPending();
    if p.same && n > 7 && status != p.last {
      ExpandAppend(p.emitted, RunLength(p.last, n));
      UniformRun(p.pending);
      FullAppended(p.emitted, RunLength(p.last, n));
      UniformSnoc([], status);
    }
  }

  lemma {:induction false} LastReceived(s: seq<Symbol>)
    requires Received(s)
    ensures LastOf(s) == WITHOUT_DELTA <==> s == []
  {
  }

  lemma {:induction false} UniformRun(s: seq<Symbol>)
    requires Uniform(s) && s != []
    ensures Symbols(RunLength(LastOf(s), |s|)) == s
  {
    assert Repeat(LastOf(s), |s|) == s;
  }

  lemma {:induction false} AppendKeeps(p: Packer, statuses: seq<Symbol>, status: Symbol)
    requires Invariant(p, statuses) && status < WITHOUT_DELTA
    ensures Midway(Append(CloseRun(p, status), status), statuses + [status])
  {
    hide Expand, Uniform, CloseRun;
    CloseRunKeeps(p, statuses, status);
    var q := CloseRun(p, status);
    var a := Append(q, status);
    assert a.pending[..|q.pending|] == q.pending;
    assert Expand(a.emitted) + a.pending == statuses + [status];
  }

  lemma {:induction false} StepKeeps(p: Packer, statuses: seq<Symbol>, status: Symbol)
    requires Invariant(p, statuses) && status < WITHOUT_DELTA
    ensures Invariant(Step(p, status), statuses + [status])
  {
    AppendKeeps(p, statuses, status);
    FillKeeps(Append(CloseRun(p, status), status), statuses + [status]);
  }

  lemma {:induction false} FullVectorSymbols(two: bool, s: seq<Symbol>)
    requires |s| == Capacity(two)
    ensures Symbols(StatusVector(two, s)) == s
  {
  }

  lemma {:induction false} EmitFront(emitted: seq<Chunk>, pending: seq<Symbol>, two: bool, statuses: seq<Symbol>)
    requires Capacity(two) <= |pending|
    requires Expand(emitted) + pending == statuses
    ensures Expand(emitted + [StatusVector(two, pending[..Capacity(two)])]) + pending[Capacity(two)..] == statuses
  {
    var n := Capacity(two);
    ExpandAppend(emitted, StatusVector(two, pending[..n]));
    FullVectorSymbols(two, pending[..n]);
    assert Expand(emitted) + pending[..n] + pending[n..] == Expand(emitted) + (pending[..n] + pending[n..]);
    assert pending[..n] + pending[n..] == pending;
  }

  lemma {:induction false} RestReceived(s: seq<Symbol>, n: nat)
    requires n <= |s| && Received(s)
    ensures Received(s[n..])
  {
  }

  lemma {:induction false} FullAppended(cs: seq<Chunk>, c: Chunk)
    requires FullChunk(c) && forall i :: 0 <= i < |cs| ==> FullChunk(cs[i])
    ensures forall i :: 0 <= i < |cs + [c]| ==> FullChunk((cs + [c])[i])
  {
  }

  /** With nothing pending the three variables are back at their start. */
  lemma {:induction false} NothingPending()
    ensures Uniform([]) && LastOf([]) == WITHOUT_DELTA && MaxOf([]) == NOT_RECEIVED && Received([])
  {
  }

  lemma {:induction false} FrontBelow(s: seq<Symbol>, n: nat, base: nat)
    requires n <= |s| && MaxOf(s) < base
    ensures Below(s[..n], base)
  {
    MaxIsMax(s);
  }

  lemma {:induction false} MaxReceived(s: seq<Symbol>)
    requires Received(s)
    ensures MaxOf(s) <= LARGE_DELTA
  {
    if s != [] {
      MaxIsMax(s);
    }
  }

  lemma {:induction false} FillKeeps(p: Packer, statuses: seq<Symbol>)
    requires Midway(p, statuses)
    ensures Invariant(FillVector(p), statuses)
  {
    hide Expand, Uniform, MaxOf, LastOf, Received, Below;
    MaxReceived(p.pending);
    if !p.same && p.max == LARGE_DELTA && |p.pending| > 6 {
      EmitFront(p.emitted, p.pending, true, statuses);
      FrontBelow(p.pending, 7, Base(true));
      FullAppended(p.emitted, StatusVector(true, p.pending[..7]));
      RestReceived(p.pending, 7);
    } else if !p.same && |p.pending| > 13 {
      EmitFront(p.emitted, p.pending, false, statuses);
      FrontBelow(p.pending, 14, Base(false));
      FullAppended(p.emitted, StatusVector(false, p.pending[..14]));
      NothingPending();
      assert p.pending[14..] == [];
    }
  }

  lemma {:induction false} PackStep(front: seq<Symbol>, last: Symbol, statuses: seq<Symbol>)
    requires statuses == front + [last]
    ensures Pack(statuses) == Step(Pack(front), last)
  {
    assert statuses[..|statuses| - 1] == front;
  }

  /** After any list of statuses the loop's state satisfies its invariant. */
  lemma {:induction false} PackInvariant(statuses: seq<Symbol>)
    requires Received(statuses)
    ensures Invariant(Pack(statuses), statuses)
  {
    if statuses == [] {
    } else {
      var front, last := statuses[..|statuses| - 1], statuses[|statuses| - 1];
      PackInvariant(front);
      StepKeeps(Pack(front), front, last);
      PackStep(front, last, statuses);
    }
  }

  /** Chunks once emitted stay: packing a prefix emits a prefix. */
  lemma {:induction false} EmittedGrows(statuses: seq<Symbol>, k: nat)
    requires k <= |statuses|
    ensures |Pack(statuses[..k]).emitted| <= |Pack(statuses).emitted|
    decreases |statuses| - k
  {
    if k == |statuses| {
      assert statuses[..k] == statuses;
    } else {
      EmittedGrows(statuses, k + 1);
      PackStep(statuses[..k], statuses[k], statuses[..k + 1]);
    }
  }

  /** Where the loop stands before status k, and that its turn emits no more than the whole list does. */
  lemma {:induction false} PackAt(statuses: seq<Symbol>, k: nat)
    requires Received(statuses) && k < |statuses|
    ensures Invariant(Pack(statuses[..k]), statuses[..k])
    ensures Pack(statuses[..k + 1]) == Step(Pack(statuses[..k]), statuses[k])
    ensures |Pack(statuses[..k + 1]).emitted| <= |Chunks(statuses)|
  {
    hide Pack, Step, Leftover, Invariant;
    assert Received(statuses[..k]);
    assert statuses[..k + 1] == statuses[..k] + [statuses[k]];
    PackInvariant(statuses[..k]);
    PackStep(statuses[..k], statuses[k], statuses[..k + 1]);
    EmittedGrows(statuses, k + 1);
  }

  /** Nothing is emitted while nothing was received. */
  lemma {:induction false} NothingEmitted(statuses: seq<Symbol>)
    requires forall i :: 0 <= i < |statuses| ==> statuses[i] == NOT_RECEIVED
    ensures Pack(statuses).emitted == [] && Pack(statuses).same
    ensures statuses != [] ==> Pack(statuses).last == NOT_RECEIVED
  {
    if statuses == [] {
    } else {
      var front := statuses[..|statuses| - 1];
      NothingEmitted(front);
      PackStep(front, NOT_RECEIVED, statuses);
    }
  }

  // ---------------------------------------------------------------- what a reader sees

  /** The pending statuses the final flush writes; the rest read back as "not received". */
  function Flushed(p: Packer): seq<Symbol> {
    if p.same then p.pending
    else p.pending[..(|p.pending| + 1) / 2] + Repeat(NOT_RECEIVED, |p.pending| / 2)
  }

  /** The statuses a reader of the chunks recovers. */
  function Reported(statuses: seq<Symbol>): seq<Symbol> {
    Expand(Pack(statuses).emitted) + Flushed(Pack(statuses))
  }

  /** The final flush loses nothing: the leftover is uniform, or its unwritten half was not received. */
  predicate LeftoverIntact(p: Packer) {
    p.same || forall i :: (|p.pending| + 1) / 2 <= i < |p.pending| ==> p.pending[i] == NOT_RECEIVED
  }

  /** No run is too long for its thirteen bits. */
  predicate RunsFit(cs: seq<Chunk>) {
    forall i :: 0 <= i < |cs| ==> cs[i].RunLength? ==> cs[i].length < 0x2000
  }

  lemma {:induction false} FlushedIntact(p: Packer)
    ensures Flushed(p) == p.pending <==> LeftoverIntact(p)
  {
    var n, h := |p.pending|, (|p.pending| + 1) / 2;
    if !p.same {
      if LeftoverIntact(p) {
        assert Flushed(p) == p.pending;
      } else {
        var i :| h <= i < n && p.pending[i] != NOT_RECEIVED;
        assert Flushed(p)[i] == NOT_RECEIVED;
      }
    }
  }

  /** The leftover chunk is encodable and stands for the flushed statuses, then padding. */
  lemma {:induction false} LeftoverChunk(p: Packer, statuses: seq<Symbol>)
    requires Invariant(p, statuses) && p.pending != [] && RunsFit(Leftover(p))
    ensures var c := Leftover(p)[0];
            && Encodable(c) && |p.pending| <= |Symbols(c)| && Symbols(c)[..|p.pending|] == Flushed(p)
  {
    MaxIsMax(p.pending);
    var n := |p.pending|;
    if p.same {
      assert Leftover(p)[0].length < 0x2000;
      assert Repeat(p.last, n) == p.pending;
      assert Repeat(p.last, n)[..n] == Repeat(p.last, n);
    } else {
      var two := p.max == LARGE_DELTA;
      assert forall i :: 0 <= i < n ==> p.pending[i] < Base(two);
    }
  }

  lemma {:induction false} FullChunksEncodable(cs: seq<Chunk>)
    requires RunsFit(cs) && forall i :: 0 <= i < |cs| ==> FullChunk(cs[i])
    ensures forall i :: 0 <= i < |cs| ==> Encodable(cs[i]) && |Symbols(cs[i])| > 0
  {
  }

  lemma {:induction false} PackedRead(p: Packer, statuses: seq<Symbol>, tail: seq<uint8>)
    requires Invariant(p, statuses) && RunsFit(p.emitted) && RunsFit(Leftover(p))
    ensures ReadStatuses(ChunkBytes(p.emitted + Leftover(p)) + tail, |statuses|)
         == Some((Expand(p.emitted) + Flushed(p), tail))
  {
    FullChunksEncodable(p.emitted);
    ReadAllChunks(p.emitted);
    if p.pending == [] {
      assert p.emitted + Leftover(p) == p.emitted;
      assert Expand(p.emitted) + Flushed(p) == Expand(p.emitted) == statuses;
      ReadNoMore(p.emitted, tail);
    } else {
      var c := Leftover(p)[0];
      assert Leftover(p) == [c];
      LeftoverChunk(p, statuses);
      ReadChunks(p.emitted, c, tail, |p.pending|);
      ChunkBytesAppend(p.emitted, c, tail);
    }
  }

  lemma {:induction false} RunsFitParts(cs: seq<Chunk>, ds: seq<Chunk>)
    requires RunsFit(cs + ds)
    ensures RunsFit(cs) && RunsFit(ds)
  {
    assert forall i :: 0 <= i < |cs| ==> (cs + ds)[i] == cs[i];
    assert forall i :: 0 <= i < |ds| ==> (cs + ds)[|cs| + i] == ds[i];
  }

  /**
   Reading the chunk bytes back yields the reported statuses, whatever follows them, and
   these are the statuses packed exactly when the final flush lost nothing.
   */
  lemma {:induction false} ChunksRoundTrip(statuses: seq<Symbol>, tail: seq<uint8>)
    requires Received(statuses) && RunsFit(Chunks(statuses))
    ensures ReadStatuses(ChunkBytes(Chunks(statuses)) + tail, |statuses|) == Some((Reported(statuses), tail))
    ensures |Reported(statuses)| == |statuses|
    ensures Reported(statuses) == statuses <==> LeftoverIntact(Pack(statuses))
  {
    PackInvariant(statuses);
    var p := Pack(statuses);
    RunsFitParts(p.emitted, Leftover(p));
    PackedRead(p, statuses, tail);
    ReportedIntact(p, statuses);
  }

  lemma {:induction false} ReportedIntact(p: Packer, statuses: seq<Symbol>)
    requires Expand(p.emitted) + p.pending == statuses
    ensures |Expand(p.emitted) + Flushed(p)| == |statuses|
    ensures Expand(p.emitted) + Flushed(p) == statuses <==> LeftoverIntact(p)
  {
    FlushedIntact(p);
    var r, k := Expand(p.emitted) + Flushed(p), |Expand(p.emitted)|;
    assert r[k..] == Flushed(p) && statuses[k..] == p.pending;
  }

  lemma {:induction false} ChunkBytesAppend(cs: seq<Chunk>, c: Chunk, tail: seq<uint8>)
    ensures ChunkBytes(cs + [c]) + tail == ChunkBytes(cs) + (U16Bytes(ChunkWord(c)) + tail)
  {
    assert (cs + [c])[..|cs|] == cs;
  }

  lemma {:induction false} ReadNoMore(cs: seq<Chunk>, tail: seq<uint8>)
    requires ReadsAs(cs)
    ensures ReadStatuses(ChunkBytes(cs) + tail, |Expand(cs)|) == Some((Expand(cs), tail))
  {
    if cs == [] {
      assert ChunkBytes(cs) + tail == tail;
    } else {
      ReadAllItems(ReadWord, ChunkBytes(cs), |Expand(cs)|, Expand(cs), tail);
    }
  }

  lemma {:induction false} ShortStep(s: seq<Symbol>, status: Symbol, same: bool, max: Symbol)
    requires |s| <= 5
    ensures Step(Packer([], s, same, LastOf(s), max), status) ==
            Packer([], s + [status], same && (LastOf(s) == status || LastOf(s) == WITHOUT_DELTA), status,
                   if status > max then status else max)
  {
  }

  /** As written, the flush drops the second half of a mixed leftover. */
  lemma {:induction false} FlushLosesStatuses()
    ensures Reported([SMALL_DELTA, NOT_RECEIVED, SMALL_DELTA]) == [SMALL_DELTA, NOT_RECEIVED, NOT_RECEIVED]
  {
    hide Step;
    var a: seq<Symbol>, b: seq<Symbol> := [SMALL_DELTA], [SMALL_DELTA, NOT_RECEIVED];
    var c := [SMALL_DELTA, NOT_RECEIVED, SMALL_DELTA];
    PackStep([], SMALL_DELTA, a);
    PackStep(a, NOT_RECEIVED, b);
    PackStep(b, SMALL_DELTA, c);
    ShortStep([], SMALL_DELTA, true, NOT_RECEIVED);
    ShortStep(a, NOT_RECEIVED, true, SMALL_DELTA);
    ShortStep(b, SMALL_DELTA, false, SMALL_DELTA);
    assert Pack(c) == Packer([], c, false, SMALL_DELTA, SMALL_DELTA);
    assert Flushed(Pack(c)) == [SMALL_DELTA, NOT_RECEIVED, NOT_RECEIVED];
  }

  // ---------------------------------------------------------------- size

  lemma {:induction false} FullChunksLength(cs: seq<Chunk>)
    requires forall i :: 0 <= i < |cs| ==> FullChunk(cs[i])
    ensures |Expand(cs)| >= 7 * |cs|
  {
    if cs == [] {
    } else {
      FullChunksLength(cs[..|cs| - 1]);
    }
  }

  /** Every chunk but the last covers at least seven statuses, so n statuses take at most n/7 chunks, rounded up. */
  lemma {:induction false} ChunkCountBound(statuses: seq<Symbol>)
    requires Received(statuses)
    ensures forall i :: 0 <= i < |Chunks(statuses)| - 1 ==> |Symbols(Chunks(statuses)[i])| >= 7
    ensures |Chunks(statuses)| <= (|statuses| + 6) / 7
  {
    PackInvariant(statuses);
    FullChunksLength(Pack(statuses).emitted);
  }

  lemma {:induction false} ChunkWithin(cs: seq<Chunk>, i: nat)
    requires i < |cs|
    ensures |Symbols(cs[i])| <= |Expand(cs)|
  {
    if i == |cs| - 1 {
    } else {
      ChunkWithin(cs[..|cs| - 1], i);
    }
  }

  /** No run is longer than the list of statuses it packs. */
  lemma {:induction false} RunsWithin(statuses: seq<Symbol>)
    requires Received(statuses)
    ensures forall i :: 0 <= i < |Chunks(statuses)| ==>
              Chunks(statuses)[i].RunLength? ==> Chunks(statuses)[i].length <= |statuses|
  {
    PackInvariant(statuses);
    var p := Pack(statuses);
    forall i | 0 <= i < |p.emitted| ensures p.emitted[i].RunLength? ==> p.emitted[i].length <= |statuses| {
      ChunkWithin(p.emitted, i);
    }
  }
}
