/**
 When the loss queue asks: every insertion and every call counts towards the next
 effective call, in a counter of eight bits.
 */
module LossTiming {
  import opened Words
  import opened NackPairs
  import opened LossQueue
  import opened LossQueueRuns

  lemma {:induction false} RunOpsNext(s: State, ops: seq<Op>, k: nat)
    requires k < |ops|
    ensures RunOps(s, ops[..k + 1]) == Apply(RunOps(s, ops[..k]), ops[k])
    decreases k
  {
    hide Apply;
    if k == 0 {
      assert ops[..0] == [] && ops[..1] == [ops[0]] && [ops[0]][1..] == [];
    } else {
      RunOpsNext(Apply(s, ops[0]), ops[1..], k - 1);
      assert ops[..k + 1][1..] == ops[1..][..k] && ops[..k][1..] == ops[1..][..k - 1];
      assert ops[1..][k - 1] == ops[k];
    }
  }

  /** Operation k of a run from newNACKQueue pushes a number that is not queued. */
  predicate Inserts(ops: seq<Op>, k: nat)
    requires k < |ops|
  {
    ops[k].PushOp? &&
    var s := RunOps(NEW_STATE, ops[..k]);
    !Holds(s.nacks, Extended(Tracked(s, ops[k].sn), ops[k].sn))
  }

  /** Operation k is a call that looks through the queue. */
  predicate Asks(ops: seq<Op>, k: nat)
    requires k < |ops|
  {
    ops[k].PairsOp? && Effective(RunOps(NEW_STATE, ops[..k]))
  }

  /** The insertions and the calls among operations i to k - 1. */
  function Counts(ops: seq<Op>, i: nat, k: nat): nat
    requires i <= k <= |ops|
  {
    if i == k then 0 else Counts(ops, i, k - 1) + if ops[k - 1].PairsOp? || Inserts(ops, k - 1) then 1 else 0
  }

  /** Every insertion and every ineffective call adds one; an effective call starts over. */
  lemma {:induction false} CounterStep(ops: seq<Op>, k: nat)
    requires k < |ops|
    ensures var c, c' := RunOps(NEW_STATE, ops[..k]).counter, RunOps(NEW_STATE, ops[..k + 1]).counter;
            c' == if Asks(ops, k) then 0 else Wrap8(c + if ops[k].PairsOp? || Inserts(ops, k) then 1 else 0)
  {
    hide RunOps, Or, Wrap32, Wrap8, Pushed, Position, Holds, Present, Survivors, KeyFrameSN, Removed;
    var s := RunOps(NEW_STATE, ops[..k]);
    RunOpsNext(NEW_STATE, ops, k);
    QueueInvariant(ops[..k]);
    CountFits(s.counter);
    if ops[k].PushOp? {
      HoldsPresent(s.nacks, Extended(Tracked(s, ops[k].sn), ops[k].sn));
    }
  }

  lemma {:induction false} CountFits(c: uint8)
    ensures Wrap8(c) == c && (c < 2 ==> Wrap8(c + 1) == c + 1)
  {
  }

  lemma {:induction false} AddOne(c: nat, d: nat)
    ensures Wrap8(Wrap8(c) + d) == Wrap8(c + d)
  {
  }

  lemma {:induction false} CounterAdds(ops: seq<Op>, i: nat, k: nat)
    requires i <= k <= |ops| && forall m :: i <= m < k ==> !Asks(ops, m)
    ensures RunOps(NEW_STATE, ops[..k]).counter == Wrap8(RunOps(NEW_STATE, ops[..i]).counter + Counts(ops, i, k))
  {
    hide RunOps, Asks, Inserts, Wrap8;
    var c := RunOps(NEW_STATE, ops[..i]).counter;
    if i == k {
      CountFits(c);
    } else {
      CounterAdds(ops, i, k - 1);
      CounterStep(ops, k - 1);
      AddOne(c + Counts(ops, i, k - 1), if ops[k - 1].PairsOp? || Inserts(ops, k - 1) then 1 else 0);
    }
  }

  /**
   After an effective call, operation j, a call is effective exactly when the insertions
   and the calls between the two, modulo 256, are two or more.
   */
  lemma {:induction false} NextEffective(ops: seq<Op>, j: nat, k: nat)
    requires j < k < |ops| && Asks(ops, j) && ops[k].PairsOp?
    requires forall m :: j < m < k ==> !Asks(ops, m)
    ensures Asks(ops, k) <==> Counts(ops, j + 1, k) % 256 >= 2
  {
    hide RunOps, Inserts;
    CounterStep(ops, j);
    CounterAdds(ops, j + 1, k);
  }

  /** The first one counts from the start of the run. */
  lemma {:induction false} FirstEffective(ops: seq<Op>, k: nat)
    requires k < |ops| && ops[k].PairsOp? && forall m :: 0 <= m < k ==> !Asks(ops, m)
    ensures Asks(ops, k) <==> Counts(ops, 0, k) % 256 >= 2
  {
    CounterAdds(ops, 0, k);
    assert ops[..0] == [];
  }

  /** What a call does and gives out: nothing but the count, or a look through the queue. */
  lemma {:induction false} CallMeaning(ops: seq<Op>, k: nat)
    requires k < |ops| && ops[k].PairsOp?
    ensures var s, s' := RunOps(NEW_STATE, ops[..k]), RunOps(NEW_STATE, ops[..k + 1]);
            if Asks(ops, k) then s'.nacks == Survivors(s.nacks) && Reported(s) == Numbers(Survivors(s.nacks))
            else s'.nacks == s.nacks && Reported(s) == []
  {
    hide Survivors, KeyFrameSN;
    RunOpsNext(NEW_STATE, ops, k);
  }
}
