/**
 Joins and publishes come to their end: every step lowers a count of what is left to do,
 so that without new ones the mesh is quiet after a bounded number of steps.
 */
module MeshProgress {
  import opened Words
  import opened Mesh
  import opened MeshSafety

  function SumOf(f: Thread -> nat, ts: seq<Thread>): nat {
    if ts == [] then 0 else SumOf(f, ts[..|ts| - 1]) + f(ts[|ts| - 1])
  }

  lemma {:induction false} SumChanged(f: Thread -> nat, ts: seq<Thread>, i: nat, t: Thread)
    requires i < |ts|
    ensures SumOf(f, ts[i := t]) + f(ts[i]) == SumOf(f, ts) + f(t)
  {
    var n := |ts| - 1;
    if i < n {
      SumChanged(f, ts[..n], i, t);
      assert ts[i := t][..n] == ts[..n][i := t];
    } else {
      assert ts[i := t][..n] == ts[..n];
    }
  }

  // ---------------------------------------------------------------- what is left to do

  function Joining(t: Thread): nat { if t.pc.JoinStart? then 1 else 0 }
  function Registering(t: Thread): nat { if t.pc.PublishStart? then 1 else 0 }

  /** The peers and receivers there can be once the threads started have gone on. */
  function PeersToCome(s: State): nat { |s.peers| + SumOf(Joining, s.threads) }
  function ReceiversToCome(s: State): nat { |s.receivers| + SumOf(Registering, s.threads) }

  /** Steps left inside a router's lock: three for each receiver still to deliver, and the unlocking. */
  function DeliverySteps(d: Delivery): nat {
    3 * |d.work| + match d.stage
                   case Looking => 2
                   case Missing(_) => 1
                   case Unhooked(_) => 0
  }

  /** Steps for visits to n peers, when no router has more than the given number of receivers. */
  function VisitSteps(n: nat, receivers: nat): nat { n * (3 * receivers + 3) }

  function PcSteps(pc: Pc, peers: nat, receivers: nat): nat {
    match pc
    case JoinStart => VisitSteps(peers, receivers) + 3
    case JoinAdded => VisitSteps(peers, receivers) + 2
    case Subscribing(others) => VisitSteps(|others|, receivers) + 1
    case PublishStart(_) => VisitSteps(peers, receivers) + 3
    case Registered(_) => VisitSteps(peers, receivers) + 2
    case Publishing(_, others) => VisitSteps(|others|, receivers) + 1
    case Finished => 0
  }

  function ThreadSteps(peers: nat, receivers: nat): Thread -> nat {
    (t: Thread) => PcSteps(t.pc, peers, receivers) + if t.delivery.Some? then DeliverySteps(t.delivery.value) else 0
  }

  function StepsLeft(s: State, peers: nat, receivers: nat): nat { SumOf(ThreadSteps(peers, receivers), s.threads) }

  /** Enough for every run that starts no thread. */
  function Bound(s: State): nat { StepsLeft(s, PeersToCome(s), ReceiversToCome(s)) }

  predicate Spawns(step: Step) { step.SpawnJoin? || step.SpawnPublish? }

  // ---------------------------------------------------------------- one step

  lemma {:induction false} VisitOneLess(n: nat, receivers: nat)
    requires n > 0
    ensures VisitSteps(n, receivers) == VisitSteps(n - 1, receivers) + 3 * receivers + 3
  {
  }

  lemma {:induction false} FewerVisits(m: nat, n: nat, receivers: nat)
    requires m <= n
    ensures VisitSteps(m, receivers) <= VisitSteps(n, receivers)
    decreases n
  {
    if m < n {
      VisitOneLess(n, receivers);
      FewerVisits(m, n - 1, receivers);
    }
  }

  lemma {:induction false} OwnedFewer(s: State, p: PeerId)
    ensures |ReceiversOf(s, p)| <= |s.receivers|
  {
    SubsetSize(ReceiversOf(s, p), s.receivers);
  }

  lemma {:induction false} SubsetSize<T>(a: set<T>, b: set<T>)
    requires a <= b
    ensures |a| <= |b|
  {
    if x :| x in a {
      SubsetSize(a - {x}, b - {x});
    }
  }

  /** What a step makes of its own thread. */
  function Moved(s: State, step: Step): Thread
    requires Enabled(s, step) && !Spawns(step)
  {
    Next(s, step).threads[step.i]
  }

  lemma {:induction false} OnlyOwnThread(s: State, step: Step)
    requires Enabled(s, step) && !Spawns(step)
    ensures step.i < |s.threads| && Next(s, step).threads == s.threads[step.i := Moved(s, step)]
  {
    hide AlreadyHas;
  }

  lemma {:induction false} VisitLowers(s: State, step: Step, peers: nat, receivers: nat)
    requires Enabled(s, step) && (step.VisitRouter? || step.VisitSubscriber?) && |s.receivers| <= receivers
    requires ThreadOk(s, s.threads[step.i])
    ensures ThreadSteps(peers, receivers)(Moved(s, step)) < ThreadSteps(peers, receivers)(s.threads[step.i])
  {
    hide VisitSteps;
    var t := s.threads[step.i];
    var others := t.pc.others;
    assert |others - {step.q}| == |others| - 1;
    VisitOneLess(|others|, receivers);
    OwnedFewer(s, step.q);
    if step.VisitSubscriber? {
      SubsetSize({t.pc.r}, s.receivers);
    }
  }

  lemma {:induction false} SnapshotLowers(s: State, step: Step, peers: nat, receivers: nat)
    requires Enabled(s, step) && (step.SnapshotOthers? || step.SnapshotPeers?) && |s.peers| <= peers
    ensures ThreadSteps(peers, receivers)(Moved(s, step)) < ThreadSteps(peers, receivers)(s.threads[step.i])
  {
    hide VisitSteps;
    var others := s.peers - {s.threads[step.i].peer};
    SubsetSize(others, s.peers);
    FewerVisits(|others|, peers, receivers);
  }

  lemma {:induction false} DeliveryLowers(s: State, step: Step, peers: nat, receivers: nat)
    requires Enabled(s, step) && (step.Look? || step.AddTrack? || step.Hook? || step.Unlock?)
    requires ThreadOk(s, s.threads[step.i])
    ensures ThreadSteps(peers, receivers)(Moved(s, step)) < ThreadSteps(peers, receivers)(s.threads[step.i])
  {
    hide PcSteps, AlreadyHas, DeliverySteps, DeliveryOk;
    var d := s.threads[step.i].delivery.value;
    DeliveryCosts(d);
    if step.Look? {
      DeliveryCosts(d.(stage := Missing(step.r)));
      DeliveryCosts(d.(work := d.work - {step.r}));
      assert |d.work - {step.r}| == |d.work| - 1;
    } else if step.AddTrack? {
      DeliveryCosts(d.(stage := Unhooked(d.stage.r)));
    } else if step.Hook? {
      InWork(s, s.threads[step.i], d);
      DeliveryCosts(d.(work := d.work - {d.stage.r}, stage := Looking));
      assert |d.work - {d.stage.r}| == |d.work| - 1;
    }
  }

  lemma {:induction false} DeliveryCosts(d: Delivery)
    ensures DeliverySteps(d) ==
            3 * |d.work| + if d.stage.Looking? then 2 else if d.stage.Missing? then 1 else 0
  {
  }

  lemma {:induction false} InWork(s: State, t: Thread, d: Delivery)
    requires DeliveryOk(s, t, d) && d.stage.Unhooked?
    ensures d.stage.r in d.work
  {
  }

  /** Every step lowers what its thread has left to do. */
  lemma {:induction false} OwnStepsLower(s: State, step: Step, peers: nat, receivers: nat)
    requires Inv(s) && Enabled(s, step) && !Spawns(step) && |s.peers| <= peers && |s.receivers| <= receivers
    ensures ThreadSteps(peers, receivers)(Moved(s, step)) < ThreadSteps(peers, receivers)(s.threads[step.i])
  {
    hide VisitSteps, Named, Exclusive, AllTracksOk, HooksOk, AllCovered, AlreadyHas, ThreadOk;
    match step
    case VisitRouter(_, _) => VisitLowers(s, step, peers, receivers);
    case VisitSubscriber(_, _) => VisitLowers(s, step, peers, receivers);
    case SnapshotOthers(_) => SnapshotLowers(s, step, peers, receivers);
    case SnapshotPeers(_) => SnapshotLowers(s, step, peers, receivers);
    case Look(_, _) => DeliveryLowers(s, step, peers, receivers);
    case AddTrack(_) => DeliveryLowers(s, step, peers, receivers);
    case Hook(_) => DeliveryLowers(s, step, peers, receivers);
    case Unlock(_) => DeliveryLowers(s, step, peers, receivers);
    case AddPeer(_) =>
    case AddReceiver(_) =>
    case Finish(_) =>
  }

  /** No step but a spawn lets more peers or receivers come. */
  lemma {:induction false} NoMoreToCome(s: State, step: Step)
    requires Enabled(s, step) && !Spawns(step)
    ensures PeersToCome(Next(s, step)) <= PeersToCome(s) && ReceiversToCome(Next(s, step)) <= ReceiversToCome(s)
  {
    hide SumOf, AlreadyHas;
    OnlyOwnThread(s, step);
    SumChanged(Joining, s.threads, step.i, Moved(s, step));
    SumChanged(Registering, s.threads, step.i, Moved(s, step));
  }

  /** Every step but a spawn lowers the steps left. */
  lemma {:induction false} StepsShrink(s: State, step: Step, peers: nat, receivers: nat)
    requires Inv(s) && Enabled(s, step) && !Spawns(step)
    requires PeersToCome(s) <= peers && ReceiversToCome(s) <= receivers
    ensures StepsLeft(Next(s, step), peers, receivers) < StepsLeft(s, peers, receivers)
  {
    hide Inv, ThreadSteps, Enabled, Next;
    OnlyOwnThread(s, step);
    OwnStepsLower(s, step, peers, receivers);
    SumChanged(ThreadSteps(peers, receivers), s.threads, step.i, Moved(s, step));
  }

  // ---------------------------------------------------------------- whole runs

  predicate NoSpawns(steps: seq<Step>) { forall k :: 0 <= k < |steps| ==> !Spawns(steps[k]) }

  /** A run that starts no thread keeps the invariant and pays for every step. */
  lemma {:induction false} RunShrinks(s: State, steps: seq<Step>, peers: nat, receivers: nat)
    requires Inv(s) && NoSpawns(steps) && Run(s, steps).Some?
    requires PeersToCome(s) <= peers && ReceiversToCome(s) <= receivers
    ensures var t := Run(s, steps).value;
            && Inv(t) && PeersToCome(t) <= peers && ReceiversToCome(t) <= receivers
            && StepsLeft(t, peers, receivers) + |steps| <= StepsLeft(s, peers, receivers)
  {
    hide Inv, Enabled, Next, StepsLeft, PeersToCome, ReceiversToCome;
    if steps != [] {
      var front, step := steps[..|steps| - 1], steps[|steps| - 1];
      RunShrinks(s, front, peers, receivers);
      var t := Run(s, front).value;
      InvNext(t, step);
      NoMoreToCome(t, step);
      StepsShrink(t, step, peers, receivers);
    }
  }

  /** From a reachable state every run that starts no thread ends within the bound. */
  lemma {:induction false} RunsEnd(before: seq<Step>, steps: seq<Step>)
    requires Run(START, before).Some?
    requires var s := Run(START, before).value; NoSpawns(steps) && Run(s, steps).Some?
    ensures |steps| <= Bound(Run(START, before).value)
  {
    var s := Run(START, before).value;
    InvRun(before);
    RunShrinks(s, steps, PeersToCome(s), ReceiversToCome(s));
  }

  /**
   Every such run, however far it has come, can be carried on to a quiet state: together
   with RunsEnd, the mesh of MeshComplete is always reached.
   */
  lemma {:induction false} QuietReached(before: seq<Step>, steps: seq<Step>) returns (rest: seq<Step>)
    requires Run(START, before).Some?
    requires var s := Run(START, before).value; NoSpawns(steps) && Run(s, steps).Some?
    ensures var s := Run(START, before).value;
            NoSpawns(rest) && Run(s, steps + rest).Some? && Quiet(Run(s, steps + rest).value)
    decreases Bound(Run(START, before).value) - |steps|
  {
    hide Enabled, Next, Bound;
    var s := Run(START, before).value;
    var t := Run(s, steps).value;
    if Quiet(t) {
      rest := [];
      assert steps + rest == steps;
    } else {
      var step := NoDeadlock(t);
      assert (steps + [step])[..|steps|] == steps;
      RunsEnd(before, steps + [step]);
      var more := QuietReached(before, steps + [step]);
      rest := [step] + more;
      assert steps + rest == (steps + [step]) + more;
    }
  }
}
