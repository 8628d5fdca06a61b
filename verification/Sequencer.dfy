/**
 The record of what a down track sent: a ring of 500 entries that pairs each outgoing
 number with its source number and timestamp, and throttles repeated requests.
 */
module Sequencer {
  import opened Words

  const HISTORY := 500
  const IGNORE_RETRANSMISSION := 100

  datatype PacketMeta = PacketMeta(
    sourceSeqNo: uint16,
    targetSeqNo: uint16,
    timestamp: uint32,
    lastNack: uint32,
    layer: uint8)

  const NO_META := PacketMeta(0, 0, 0, 0, 0)

  datatype State = State(init: bool, headSN: uint16, step: nat, slots: seq<PacketMeta>)

  function NewState(): State { State(false, 0, 0, seq(HISTORY, _ => NO_META)) }

  predicate WellFormed(s: State) { |s.slots| == HISTORY && s.step < HISTORY }

  function NextStep(step: nat): nat { if step + 1 >= HISTORY then 0 else step + 1 }

  function Skip(step: nat, k: nat): nat {
    if k == 0 then step else NextStep(Skip(step, k - 1))
  }

  function Started(s: State, target: uint16): State {
    if s.init then s else s.(init := true, headSN := target)
  }

  function Gap(s: State, target: uint16): nat { Wrap16(target - s.headSN) }

  function Stored(s: State, m: PacketMeta): State
    requires WellFormed(s)
  {
    s.(slots := s.slots[s.step := m], step := NextStep(s.step))
  }

  /** Whether a packet behind the head is too far behind to record. */
  predicate TooOld(s: State, target: uint16) {
    var pos := s.step - Wrap16(s.headSN - target);
    pos < 0 && -pos >= HISTORY
  }

  /**
   Records one outgoing packet.  A packet behind the head is stored at the write position
   too, which moves on: the place computed for it is not used.
   */
  function Push(s: State, source: uint16, target: uint16, timestamp: uint32, layer: uint8, head: bool): State
    requires WellFormed(s)
  {
    var t := Started(s, target);
    var m := PacketMeta(source, target, timestamp, 0, layer);
    if head then
      Stored(t.(step := Skip(t.step, if Gap(t, target) == 0 then 0 else Gap(t, target) - 1), headSN := target), m)
    else if TooOld(t, target) then t
    else Stored(t, m)
  }

  /** Where a requested number is looked up. */
  function LookupSlot(s: State, target: uint16): (r: Option<nat>)
    requires WellFormed(s)
    ensures r.Some? ==> r.value < HISTORY
  {
    var pos := s.step - Wrap16(s.headSN - target) - 1;
    if pos >= 0 then Some(pos)
    else if -pos >= HISTORY then None
    else Some(pos + HISTORY)
  }

  /** A record may be returned when it never was, or not within the last hundred milliseconds. */
  predicate Ready(m: PacketMeta, now: uint32) {
    m.lastNack == 0 || Wrap32(now - m.lastNack) > IGNORE_RETRANSMISSION
  }

  function Found(s: State, target: uint16, now: uint32): (r: Option<nat>)
    requires WellFormed(s)
    ensures r.Some? ==> r.value < HISTORY
  {
    match LookupSlot(s, target)
    case None => None
    case Some(pos) =>
      if s.slots[pos].targetSeqNo == target && Ready(s.slots[pos], now) then Some(pos) else None
  }

  /** One requested number: the record is stamped with the time and returned. */
  function AskOne(s: State, target: uint16, now: uint32): (State, seq<PacketMeta>)
    requires WellFormed(s)
  {
    match Found(s, target, now)
    case None => (s, [])
    case Some(pos) =>
      var m := s.slots[pos].(lastNack := now);
      (s.(slots := s.slots[pos := m]), [m])
  }

  function Ask(s: State, targets: seq<uint16>, now: uint32): (r: (State, seq<PacketMeta>))
    requires WellFormed(s)
    ensures WellFormed(r.0)
  {
    if targets == [] then (s, [])
    else
      var (t, ms) := Ask(s, targets[..|targets| - 1], now);
      var (u, m) := AskOne(t, targets[|targets| - 1], now);
      (u, ms + m)
  }

  class Recorder {
    const seqs: array<PacketMeta>
    var init: bool
    var headSN: uint16
    var step: nat

    ghost function Value(): State
      reads this, seqs
    {
      State(init, headSN, step, seqs[..])
    }

    ghost predicate Valid()
      reads this, seqs
    {
      WellFormed(Value())
    }

    constructor ()
      ensures Valid() && Value() == NewState() && fresh(seqs)
    {
      init, headSN, step := false, 0, 0;
      seqs := new PacketMeta[HISTORY](_ => NO_META);
    }

    method PushPacket(sn: uint16, offSn: uint16, timeStamp: uint32, layer: uint8, head: bool)
        returns (stored: Option<PacketMeta>)
      requires Valid()
      modifies this, seqs
      ensures Valid() && Value() == Push(old(Value()), sn, offSn, timeStamp, layer, head)
      ensures stored == if !head && TooOld(Started(old(Value()), offSn), offSn) then None
                        else Some(PacketMeta(sn, offSn, timeStamp, 0, layer))
    {
      if !init {
        headSN, init := offSn, true;
      }
      ghost var t := Started(old(Value()), offSn);
      if head {
        var inc := Wrap16(offSn - headSN);
        AdvanceOver(inc);
        headSN := offSn;
        assert Value() == t.(step := Skip(t.step, if inc == 0 then 0 else inc - 1), headSN := offSn);
      } else {
        var pos := step - Wrap16(headSN - offSn);
        if pos < 0 && -pos >= HISTORY {
          return None;
        }
        assert Value() == t;
      }
      stored := Some(PacketMeta(sn, offSn, timeStamp, 0, layer));
      Store(stored.value);
    }

    method Store(m: PacketMeta)
      requires Valid()
      modifies this`step, seqs
      ensures Valid() && Value() == Stored(old(Value()), m)
    {
      seqs[step] := m;
      Advance();
    }

    /** The numbers skipped by a jump ahead of inc leave their entries as they were. */
    method AdvanceOver(inc: nat)
      requires step < HISTORY
      modifies this`step
      ensures step == Skip(old(step), if inc == 0 then 0 else inc - 1) && step < HISTORY
    {
      var i := 1;
      while i < inc
        invariant 1 <= i && i <= if inc == 0 then 1 else inc
        invariant step == Skip(old(step), i - 1) && step < HISTORY
      {
        Advance();
        i := i + 1;
      }
    }

    method Advance()
      requires step < HISTORY
      modifies this`step
      ensures step == NextStep(old(step)) && step < HISTORY
    {
      step := step + 1;
      if step >= HISTORY {
        step := 0;
      }
    }

    method GetSeqNoPairs(seqNo: seq<uint16>, refTime: uint32) returns (meta: seq<PacketMeta>)
      requires Valid()
      modifies seqs
      ensures Valid() && (Value(), meta) == Ask(old(Value()), seqNo, refTime)
    {
      meta := [];
      for k := 0 to |seqNo|
        invariant Valid() && (Value(), meta) == Ask(old(Value()), seqNo[..k], refTime)
      {
        assert seqNo[..k + 1][..k] == seqNo[..k];
        var found := AskFor(seqNo[k], refTime);
        meta := meta + found;
      }
      assert seqNo[..|seqNo|] == seqNo;
    }

    method AskFor(sn: uint16, refTime: uint32) returns (found: seq<PacketMeta>)
      requires Valid()
      modifies seqs
      ensures Valid() && (Value(), found) == AskOne(old(Value()), sn, refTime)
    {
      var pos := step - Wrap16(headSN - sn) - 1;
      if pos < 0 {
        if -pos >= HISTORY {
          return [];
        }
        pos := HISTORY + pos;
      }
      if seqs[pos].targetSeqNo == sn {
        if seqs[pos].lastNack == 0 || Wrap32(refTime - seqs[pos].lastNack) > IGNORE_RETRANSMISSION {
          seqs[pos] := seqs[pos].(lastNack := refTime);
          return [seqs[pos]];
        }
      }
      return [];
    }
  }
}
