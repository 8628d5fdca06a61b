/**
 The packet cache as the program keeps it: one byte array cut into slots of 1460 bytes, a
 two-byte length before each packet, and a loss queue fed with the numbers skipped.
 */
module Bucket {
  import opened Words
  import opened NackPairs
  import opened PacketRing
  import LossQueue
  import opened LossQueueRuns
  import opened LossRequests

  const MAX_PKT_SIZE := 1460

  datatype LookupError = NoError | PacketNotFound | BufferTooSmall

  /** The first bytes of slot i hold the packet, or zeros if none was ever written. */
  predicate SlotHolds(bytes: seq<uint8>, i: nat, slot: Option<Packet>)
    requires (i + 1) * MAX_PKT_SIZE <= |bytes|
  {
    var off := i * MAX_PKT_SIZE;
    match slot
    case None => forall k :: off <= k < off + 6 ==> bytes[k] == 0
    case Some(p) => Cacheable(p) && bytes[off..off + 2 + |p|] == U16Bytes(Wrap16(|p|)) + p
  }

  predicate SlotsHold(bytes: seq<uint8>, slots: seq<Option<Packet>>)
    requires |slots| * MAX_PKT_SIZE <= |bytes|
  {
    forall i :: 0 <= i < |slots| ==> SlotInside(|slots|, i) && SlotHolds(bytes, i, slots[i])
  }

  predicate SlotInside(n: nat, i: nat) { (i + 1) * MAX_PKT_SIZE <= n * MAX_PKT_SIZE }

  /** The array after a packet is written at offset off: length, content, the rest as before. */
  function Written(bytes: seq<uint8>, off: nat, p: Packet): seq<uint8>
    requires off + 2 + |p| <= |bytes|
  {
    bytes[..off] + U16Bytes(Wrap16(|p|)) + p + bytes[off + 2 + |p|..]
  }

  /** Writing one slot leaves every other slot alone. */
  lemma {:induction false} WrittenSlots(bytes: seq<uint8>, slots: seq<Option<Packet>>, i: nat, p: Packet)
    requires |slots| * MAX_PKT_SIZE <= |bytes| && i < |slots| && Cacheable(p)
    requires SlotsHold(bytes, slots)
    requires i * MAX_PKT_SIZE + 2 + |p| <= |bytes|
    ensures SlotsHold(Written(bytes, i * MAX_PKT_SIZE, p), slots[i := Some(p)])
  {
    var off := i * MAX_PKT_SIZE;
    var after, slots' := Written(bytes, off, p), slots[i := Some(p)];
    forall j | 0 <= j < |slots| ensures SlotInside(|slots|, j) && SlotHolds(after, j, slots'[j]) {
      assert SlotInside(|slots|, j);
      OtherSlot(bytes, i, p, j, slots[j]);
    }
  }

  lemma {:induction false} OtherSlot(bytes: seq<uint8>, i: nat, p: Packet, j: nat, slot: Option<Packet>)
    requires (i + 1) * MAX_PKT_SIZE <= |bytes| && (j + 1) * MAX_PKT_SIZE <= |bytes| && Cacheable(p)
    requires SlotHolds(bytes, j, slot)
    ensures SlotHolds(Written(bytes, i * MAX_PKT_SIZE, p), j, if i == j then Some(p) else slot)
  {
    var a, b := i * MAX_PKT_SIZE, j * MAX_PKT_SIZE;
    var after := Written(bytes, a, p);
    if i == j {
      assert after[a..a + 2 + |p|] == U16Bytes(Wrap16(|p|)) + p;
    } else {
      assert b + MAX_PKT_SIZE <= a || a + MAX_PKT_SIZE <= b;
      assert after[b..b + MAX_PKT_SIZE] == bytes[b..b + MAX_PKT_SIZE];
      SameWindow(bytes, after, b, MAX_PKT_SIZE, if slot.Some? then 2 + |slot.value| else 0);
    }
  }

  lemma {:induction false} SameWindow(a: seq<uint8>, b: seq<uint8>, off: nat, n: nat, m: nat)
    requires m <= n && off + n <= |a| == |b| && a[off..off + n] == b[off..off + n]
    ensures forall k :: off <= k < off + n ==> a[k] == b[k]
    ensures a[off..off + m] == b[off..off + m]
  {
    forall k | off <= k < off + n ensures a[k] == b[k] {
      assert a[off..off + n][k - off] == b[off..off + n][k - off];
    }
  }

  // ---------------------------------------------------------------- the loss queue's share

  /** Reports the first n numbers below sn as missing, nearest first. */
  function PushMissing(s: LossQueue.State, sn: uint16, n: nat): LossQueue.State {
    if n == 0 then s else LossQueue.Push(PushMissing(s, sn, n - 1), Wrap16(sn - n))
  }

  /** How many numbers an in-order packet skips. */
  function Missed(r: Ring, sn: uint16): nat {
    if Gap(r, sn) == 0 then 0 else Gap(r, sn) - 1
  }

  /** The loss queue after a packet, before pairs are asked for. */
  function Noted(s: LossQueue.State, r: Ring, sn: uint16, latest: bool): LossQueue.State {
    if latest then PushMissing(s, sn, Missed(Started(r, sn), sn)) else LossQueue.Remove(s, sn)
  }

  function LossAfter(s: LossQueue.State, r: Ring, sn: uint16, latest: bool): LossQueue.State {
    if latest then LossQueue.Pairs(Noted(s, r, sn, latest)) else Noted(s, r, sn, latest)
  }

  function MaxSteps(n: nat): int { n / MAX_PKT_SIZE - 1 }

  class Bucket {
    const buf: array<uint8>
    const nacker: LossQueue.NackQueue?
    const maxSteps: nat
    var headSN: uint16
    var step: nat
    var init: bool
    ghost var slots: seq<Option<Packet>>

    ghost function Value(): Ring
      reads this
    {
      Ring(init, headSN, step, slots)
    }

    ghost predicate Valid()
      reads this, buf, nacker
    {
      && |slots| == maxSteps == MaxSteps(buf.Length) && WellFormed(Value())
      && SlotsHold(buf[..], slots)
      && (nacker != null ==> nacker.Valid())
    }

    constructor (buffer: array<uint8>, nack: bool)
      requires 2 * MAX_PKT_SIZE <= buffer.Length < 65536 * MAX_PKT_SIZE
      requires forall i :: 0 <= i < buffer.Length ==> buffer[i] == 0
      ensures Valid() && buf == buffer && Value() == EmptyRing(maxSteps)
      ensures maxSteps == buffer.Length / 1460 - 1
      ensures (nacker != null) == nack && (nack ==> fresh(nacker) && nacker.Value() == LossQueue.NEW_STATE)
    {
      buf := buffer;
      maxSteps := buffer.Length / MAX_PKT_SIZE - 1;
      headSN, step, init := 0, 0, false;
      slots := EmptyRing(buffer.Length / MAX_PKT_SIZE - 1).slots;
      if nack {
        var q := new LossQueue.NackQueue();
        nacker := q;
      } else {
        nacker := null;
      }
      new;
      assert forall i :: 0 <= i < |slots| ==> SlotInside(|slots|, i) && SlotHolds(buf[..], i, slots[i]);
    }

    /** Writes length and content of a packet at an offset. */
    method WriteAt(pkt: Packet, off: nat)
      requires off + 2 + |pkt| <= buf.Length
      modifies buf
      ensures buf[..] == Written(old(buf[..]), off, pkt)
    {
      hide U16Bytes, Wrap16;
      PutUint16(buf, off, Wrap16(|pkt|));
      CopyInto(buf, off + 2, pkt);
      WrittenInTwo(old(buf[..]), off, pkt);
    }

    /** A packet takes slot pos. */
    method WriteSlot(pkt: Packet, pos: nat) returns (stored: Packet)
      requires Valid() && pos < maxSteps && Cacheable(pkt)
      modifies buf, this`slots
      ensures Valid() && slots == old(slots)[pos := Some(pkt)] && stored == pkt
    {
      hide SlotsHold, Written, U16Bytes;
      WrittenSlots(buf[..], slots, pos, pkt);
      WriteAt(pkt, pos * MAX_PKT_SIZE);
      slots := slots[pos := Some(pkt)];
      stored := pkt;
    }

    /** Where an out-of-order packet belongs: counted back from the write position, around the end once. */
    method LatePosition(sn: uint16) returns (slot: Option<nat>)
      requires |slots| == maxSteps == MaxSteps(buf.Length) && WellFormed(Value())
      ensures slot == LateSlot(Value(), sn)
    {
      if Wrap16(headSN - sn) >= maxSteps + 1 {
        return None;
      }
      var pos: int := step - Wrap16(headSN - sn + 1);
      if pos < 0 {
        pos := pos + maxSteps;
      }
      var off := pos * MAX_PKT_SIZE;
      if off > buf.Length || off < 0 {
        return None;
      }
      slot := Some(pos);
    }

    /** An out-of-order packet goes back into its own slot, unless it is too old. */
    method Set(sn: uint16, pkt: Packet) returns (stored: Option<Packet>)
      requires Valid() && Cacheable(pkt)
      modifies buf, this`slots
      ensures Valid() && Value() == AddLate(old(Value()), pkt, sn)
      ensures stored == if LateSlot(old(Value()), sn).Some? then Some(pkt) else None
    {
      var slot := LatePosition(sn);
      if slot == None {
        return None;
      }
      LateSlotInside(Value(), sn);
      var p := WriteSlot(pkt, slot.value);
      stored := Some(p);
    }

    /** An in-order packet goes to the write position, which moves on. */
    method PushPacket(pkt: Packet) returns (stored: Packet)
      requires Valid() && Cacheable(pkt)
      modifies buf, this`slots, this`step
      ensures Valid() && Value() == Stored(old(Value()), pkt) && stored == pkt
    {
      stored := WriteSlot(pkt, step);
      step := step + 1;
      if step >= maxSteps {
        step := 0;
      }
      StepWraps(old(step), maxSteps);
    }

    /** One skipped number: the write position moves on, the loss queue is told. */
    method MissOne(missing: uint16)
      requires step < maxSteps && (nacker != null ==> nacker.Valid())
      modifies this`step, nacker
      ensures step == NextStep(old(step), maxSteps)
      ensures nacker != null ==> nacker.Valid() && nacker.Value() == LossQueue.Push(old(nacker.Value()), missing)
    {
      step := step + 1;
      if nacker != null {
        nacker.PushSN(missing);
      }
      if step >= maxSteps {
        step := 0;
      }
    }

    /** Skips the numbers between the newest and sn, each reported missing. */
    method SkipMissing(sn: uint16, diff: nat, ghost n: nat)
      requires step < maxSteps && (nacker != null ==> nacker.Valid())
      requires n == if diff == 0 then 0 else diff - 1
      modifies this`step, nacker
      ensures step == Walk(old(step), n, maxSteps)
      ensures nacker != null ==> nacker.Valid() && nacker.Value() == PushMissing(old(nacker.Value()), sn, n)
    {
      hide LossQueue.Push;
      var i := 1;
      while i < diff
        invariant 1 <= i <= n + 1
        invariant step == Walk(old(step), i - 1, maxSteps)
        invariant nacker != null ==>
                    nacker.Valid() && nacker.Value() == PushMissing(old(nacker.Value()), sn, i - 1)
      {
        MissOne(Wrap16(sn - i));
        i := i + 1;
      }
      assert i == n + 1;
    }

    /** Asks the loss queue for pairs; `lost` is what the loss callback gets, if it is called. */
    method AskForLost() returns (lost: Option<(seq<NackPair>, bool)>)
      requires nacker != null ==> nacker.Valid()
      modifies nacker
      ensures nacker == null ==> lost == None
      ensures nacker != null ==>
                && nacker.Valid() && nacker.Value() == LossQueue.Pairs(old(nacker.Value()))
                && LostOk(lost, old(nacker.Value()), nacker.kfSN > old(nacker.kfSN))
    {
      lost := None;
      if nacker != null {
        var np, akf := nacker.PairsSN();
        if |np| > 0 {
          lost := Some((np, akf));
        }
      }
    }

    /** The newest packet: what it skips is noted and asked for, then it takes the write position. */
    method AddNewest(pkt: Packet, sn: uint16)
        returns (stored: Packet, lost: Option<(seq<NackPair>, bool)>)
      requires Valid() && Cacheable(pkt)
      modifies buf, this, nacker
      ensures Valid() && Value() == AddLatest(old(Value()), pkt, sn) && stored == pkt
      ensures nacker == null ==> lost == None
      ensures nacker != null ==>
                var noted := PushMissing(old(nacker.Value()), sn, Missed(old(Value()), sn));
                && nacker.Value() == LossQueue.Pairs(noted)
                && LostOk(lost, noted, nacker.kfSN > noted.kfSN)
    {
      var diff := Wrap16(sn - headSN);
      headSN := sn;
      SkipMissing(sn, diff, Missed(old(Value()), sn));
      WalkWraps(old(step), Missed(old(Value()), sn), maxSteps);
      lost := AskForLost();
      stored := PushPacket(pkt);
    }

    /**
     Adds one packet.  `lost` carries what the loss callback is given: pairs to ask for and
     whether to ask for a key frame, when there is a loss queue and it has something to ask.
     */
    method AddOne(pkt: Packet, sn: uint16, latest: bool)
        returns (stored: Option<Packet>, lost: Option<(seq<NackPair>, bool)>)
      requires Valid() && Cacheable(pkt)
      modifies buf, this, nacker
      ensures Valid() && Value() == AddPacket(old(Value()), pkt, sn, latest)
      ensures stored == if latest || LateSlot(Started(old(Value()), sn), sn).Some? then Some(pkt) else None
      ensures nacker == null || !latest ==> lost == None
      ensures nacker != null ==>
                && nacker.Value() == LossAfter(old(nacker.Value()), old(Value()), sn, latest)
                && (latest ==> LostOk(lost, Noted(old(nacker.Value()), old(Value()), sn, true),
                                      nacker.kfSN > Noted(old(nacker.Value()), old(Value()), sn, true).kfSN))
    {
      lost := None;
      if !init {
        headSN := Wrap16(sn - 1);
        init := true;
      }
      if !latest {
        if nacker != null {
          nacker.RemoveSN(sn);
        }
        stored := Set(sn, pkt);
        return;
      }
      var p;
      p, lost := AddNewest(pkt, sn);
      stored := Some(p);
    }

    /** Where a number is looked for: counted back from the write position, around the end once. */
    method LookupPosition(sn: uint16) returns (slot: Option<nat>)
      requires |slots| == maxSteps == MaxSteps(buf.Length) && WellFormed(Value())
      ensures slot == LookupSlot(Value(), sn)
      ensures slot.Some? ==> slot.value < maxSteps
    {
      var pos: int := step - Wrap16(headSN - sn + 1);
      if pos < 0 {
        if -pos > maxSteps {
          return None;
        }
        pos := maxSteps + pos;
      }
      var off := pos * MAX_PKT_SIZE;
      if off > buf.Length {
        return None;
      }
      slot := Some(pos);
    }

    /** The packet of slot pos, if the slot carries that number. */
    method ReadSlot(pos: nat, sn: uint16) returns (p: Option<Packet>)
      requires Valid() && pos < maxSteps
      ensures slots[pos].Some? ==> Cacheable(slots[pos].value)
      ensures p == ReadAs(slots[pos], sn)
    {
      hide SlotHolds;
      assert SlotInside(|slots|, pos);
      var off := pos * MAX_PKT_SIZE;
      SlotFields(buf[..], pos, slots[pos]);
      assert slots[pos] == None ==> buf[off + 2..off + 2] == [];
      var own: int := buf[off + 4] as int * 0x100 + buf[off + 5] as int;
      if own != sn {
        return None;
      }
      var sz: int := buf[off] as int * 0x100 + buf[off + 1] as int;
      p := Some(buf[off + 2..off + 2 + sz]);
    }

    /** The cached packet of a number, if its slot still carries that number. */
    method Lookup(sn: uint16) returns (p: Option<Packet>)
      requires Valid()
      ensures p == Get(Value(), sn)
    {
      hide SlotsHold;
      var slot := LookupPosition(sn);
      if slot == None {
        return None;
      }
      p := ReadSlot(slot.value, sn);
    }

    /** Copies a cached packet out, if there is one and it fits. */
    method GetPacket(buff: array<uint8>, sn: uint16) returns (n: nat, err: LookupError)
      requires Valid() && buff != buf
      modifies buff
      ensures match Get(Value(), sn)
              case None => n == 0 && err == PacketNotFound && buff[..] == old(buff[..])
              case Some(p) =>
                && n == |p|
                && if |p| > buff.Length then err == BufferTooSmall && buff[..] == old(buff[..])
                   else err == NoError && buff[..] == p + old(buff[|p|..])
    {
      var p := Lookup(sn);
      err := if p == None then PacketNotFound else NoError;
      n := if p == None then 0 else |p.value|;
      if buff.Length < n {
        return n, BufferTooSmall;
      }
      if p.Some? {
        CopyInto(buff, 0, p.value);
      }
    }
  }

  /** What the loss callback is given: the pairs of an effective request, unless there are none. */
  predicate LostOk(lost: Option<(seq<NackPair>, bool)>, noted: LossQueue.State, ask: bool) {
    var pairs := PairsOf(LossQueue.Reported(noted));
    match lost
    case None => pairs == []
    case Some(l) => pairs != [] && l.0 == pairs && l.1 == ask
  }

  /**
   When a rise of the key-frame mark reaches the callback: exactly when an effective
   request gives up a number above the mark while another entry, with a nonzero low half,
   is still to be asked for.
   */
  lemma {:induction false} KeyFrameHeard(noted: LossQueue.State, lost: Option<(seq<NackPair>, bool)>)
    requires LostOk(lost, noted, LossQueue.Pairs(noted).kfSN > noted.kfSN)
    ensures lost.Some? && lost.value.1 <==>
            && LossQueue.Effective(noted)
            && (exists y: uint32 :: Exhausted(noted.nacks, y) && y > noted.kfSN)
            && (exists y: uint32 :: Pending(noted.nacks, y) && Low(y) != 0)
  {
    hide Exhausted, Pending, Low, LossQueue.KeyFrameSN;
    KeyFrameMeaning(noted.nacks, noted.kfSN);
    if LossQueue.Effective(noted) {
      SomethingNamed(noted);
    }
  }

  /** A queue of one exhausted entry: the mark rises, the entry goes, and the callback is not called. */
  lemma {:induction false} KeyFrameUnheard(lost: Option<(seq<NackPair>, bool)>)
    requires LostOk(lost, LossQueue.State([LossQueue.Nack(7, 3)], 2, 7, 0, 0), true)
    ensures lost == None
    ensures LossQueue.Pairs(LossQueue.State([LossQueue.Nack(7, 3)], 2, 7, 0, 0)) == LossQueue.State([], 0, 7, 7, 0)
  {
    var q := [LossQueue.Nack(7, 3)];
    assert q[..0] == [];
    assert LossQueue.Survivors(q) == [];
    assert PackEntries(LossQueue.Numbers([])).np.packetID == 0;
  }

  lemma {:induction false} LateSlotInside(r: Ring, sn: uint16)
    requires WellFormed(r) && LateSlot(r, sn).Some?
    ensures LateSlot(r, sn).value < |r.slots|
  {
  }

  lemma {:induction false} StepWraps(step: nat, n: nat)
    requires step < n
    ensures (step + 1) % n == if step + 1 >= n then 0 else step + 1
  {
    ModUnique(step + 1, if step + 1 >= n then 1 else 0, if step + 1 >= n then 0 else step + 1, n);
  }

  function NextStep(step: nat, n: nat): nat { if step + 1 >= n then 0 else step + 1 }

  /** The write position after k slots are skipped one by one. */
  function Walk(step: nat, k: nat, n: nat): (s: nat)
    requires step < n
    ensures s < n
  {
    if k == 0 then step else NextStep(Walk(step, k - 1, n), n)
  }

  lemma {:induction false} WalkWraps(step: nat, k: nat, n: nat)
    requires step < n
    ensures Walk(step, k, n) == (step + k) % n
  {
    if k == 0 {
      ModUnique(step, 0, step, n);
    } else {
      WalkWraps(step, k - 1, n);
      ModAdd(step + (k - 1), 1, n);
      StepWraps(Walk(step, k - 1, n), n);
    }
  }

  /** Length and number of a slot, as a lookup reads them. */
  lemma {:induction false} SlotFields(bytes: seq<uint8>, i: nat, slot: Option<Packet>)
    requires (i + 1) * MAX_PKT_SIZE <= |bytes| && SlotHolds(bytes, i, slot)
    ensures var off := i * MAX_PKT_SIZE;
            match slot
            case None => U16At(bytes, off) == 0 && U16At(bytes, off + 4) == 0
            case Some(p) =>
              && U16At(bytes, off) == |p| && U16At(bytes, off + 4) == OwnNumber(p)
              && off + 2 + |p| <= |bytes| && bytes[off + 2..off + 2 + |p|] == p
  {
    if slot.Some? {
      var off, p := i * MAX_PKT_SIZE, slot.value;
      var w := bytes[off..off + 2 + |p|];
      assert forall k :: 0 <= k < 2 + |p| ==> bytes[off + k] == w[k];
      assert w == U16Bytes(Wrap16(|p|)) + p;
      assert w[2..] == p;
      assert w[4] == p[2] && w[5] == p[3];
    }
  }

  lemma {:induction false} WrittenInTwo(bytes: seq<uint8>, off: nat, p: Packet)
    requires off + 2 + |p| <= |bytes|
    ensures var sized := bytes[..off] + U16Bytes(Wrap16(|p|)) + bytes[off + 2..];
            sized[..off + 2] + p + sized[off + 2 + |p|..] == Written(bytes, off, p)
  {
  }
}
