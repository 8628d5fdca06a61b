/**
 What every interleaving of joins and publishes keeps, and the mesh it ends in.
 */
module MeshSafety {
  import opened Words
  import opened Mesh

  // ---------------------------------------------------------------- the invariant

  predicate DeliveryOk(s: State, t: Thread, d: Delivery) {
    && d.router != d.sub && d.work <= ReceiversOf(s, d.router)
    && match d.stage
       case Looking => true
       case Missing(r) => r in d.work && r !in TracksOf(s, d.sub)
       case Unhooked(r) => r in d.work && r in TracksOf(s, d.sub) && d.sub !in HookedTo(s, r)
  }

  predicate PcOk(s: State, t: Thread) {
    match t.pc
    case JoinStart => true
    case JoinAdded => t.peer in s.peers
    case Subscribing(others) => others <= s.peers - {t.peer}
    case PublishStart(r) => r.owner == t.peer && t.peer in s.peers
    case Registered(r) => r.owner == t.peer && r in s.receivers
    case Publishing(r, others) => r.owner == t.peer && r in s.receivers && others <= s.peers - {t.peer}
    case Finished => true
  }

  predicate ThreadOk(s: State, t: Thread) {
    PcOk(s, t) && (t.delivery.Some? ==> DeliveryOk(s, t, t.delivery.value))
  }

  predicate ThreadsOk(s: State) {
    forall i :: 0 <= i < |s.threads| ==> ThreadOk(s, s.threads[i])
  }

  /** No two threads hold the same router's lock. */
  predicate Exclusive(s: State) {
    forall i, j :: 0 <= i < |s.threads| && 0 <= j < |s.threads| && i != j
                   && s.threads[i].delivery.Some? && s.threads[j].delivery.Some? ==>
      s.threads[i].delivery.value.router != s.threads[j].delivery.value.router
  }

  predicate Named(s: State) {
    && (forall r :: r in s.receivers ==> r.owner in s.peers)
    && (forall a, b :: a in s.receivers && b in s.receivers && SameKey(a, b) ==> a == b)
    && (forall i :: 0 <= i < |s.threads| && s.threads[i].pc.PublishStart? ==> Unused(s, s.threads[i].pc.r))
  }

  predicate NoRepeats<T(==)>(l: seq<T>) { forall i, j :: 0 <= i < j < |l| ==> l[i] != l[j] }

  /** A subscriber's down tracks are registered tracks of others, each once. */
  predicate TracksOk(s: State, q: PeerId) {
    && NoRepeats(TracksOf(s, q))
    && forall r :: r in TracksOf(s, q) ==> r in s.receivers && r.owner != q
  }

  predicate AllTracksOk(s: State) { forall q :: q in s.tracks ==> TracksOk(s, q) }

  predicate Unhooking(t: Thread, r: Receiver, q: PeerId) {
    t.delivery.Some? && t.delivery.value.sub == q && t.delivery.value.stage == Unhooked(r)
  }

  /** A receiver serves exactly the subscribers that have its down track, each once, but for one being hooked. */
  ghost predicate HooksOk(s: State) {
    && (forall r :: r in s.hooked ==> NoRepeats(HookedTo(s, r)))
    && (forall r, q :: q in HookedTo(s, r) ==> r in TracksOf(s, q))
    && (forall r, q :: r in TracksOf(s, q) && q !in HookedTo(s, r) ==>
          exists i :: 0 <= i < |s.threads| && Unhooking(s.threads[i], r, q))
  }

  /** Thread t will still see to it that q gets r. */
  predicate Owes(t: Thread, r: Receiver, q: PeerId) {
    || (t.peer == q && t.pc == JoinAdded)
    || (t.peer == q && t.pc.Subscribing? && r.owner in t.pc.others)
    || (t.pc == Registered(r))
    || (t.pc.Publishing? && t.pc.r == r && q in t.pc.others)
    || (t.delivery.Some? && t.delivery.value.sub == q && r in t.delivery.value.work)
  }

  predicate Covered(s: State, r: Receiver, q: PeerId) {
    r in TracksOf(s, q) || exists i :: 0 <= i < |s.threads| && Owes(s.threads[i], r, q)
  }

  /** Every peer has, or is owed, every other peer's track. */
  ghost predicate AllCovered(s: State) {
    forall r, q :: r in s.receivers && q in s.peers && q != r.owner ==> Covered(s, r, q)
  }

  ghost predicate Inv(s: State) {
    Named(s) && ThreadsOk(s) && Exclusive(s) && AllTracksOk(s) && HooksOk(s) && AllCovered(s)
  }

  // ---------------------------------------------------------------- coverage

  /** The step of thread i leaves the other threads, and never takes a track away. */
  ghost predicate Moves(s: State, s': State, i: nat) {
    && i < |s.threads| == |s'.threads|
    && (forall j :: 0 <= j < |s.threads| && j != i ==> s'.threads[j] == s.threads[j])
    && s.peers <= s'.peers && s.receivers <= s'.receivers
    && (forall q, r :: r in TracksOf(s, q) ==> r in TracksOf(s', q))
  }

  lemma {:induction false} CoverKept(s: State, s': State, i: nat, r: Receiver, q: PeerId)
    requires Moves(s, s', i) && Covered(s, r, q)
    requires Owes(s.threads[i], r, q) ==> Owes(s'.threads[i], r, q) || r in TracksOf(s', q)
    ensures Covered(s', r, q)
  {
    if r in TracksOf(s, q) {
    } else {
      var j :| 0 <= j < |s.threads| && Owes(s.threads[j], r, q);
      if j == i {
        if Owes(s'.threads[i], r, q) {
        }
      } else {
        assert Owes(s'.threads[j], r, q);
      }
    }
  }

  /** When the moving thread's debts are kept or settled, and new receivers and peers are its debts, all stay covered. */
  lemma {:induction false} AllCoverKept(s: State, s': State, i: nat)
    requires Moves(s, s', i) && AllCovered(s)
    requires forall r, q :: r in s'.receivers && Owes(s.threads[i], r, q) ==> Owes(s'.threads[i], r, q) || r in TracksOf(s', q)
    requires forall r, q :: r in s'.receivers && q in s'.peers && q != r.owner && (r !in s.receivers || q !in s.peers) ==>
               Owes(s'.threads[i], r, q)
    ensures AllCovered(s')
  {
    forall r, q | r in s'.receivers && q in s'.peers && q != r.owner ensures Covered(s', r, q) {
      if r in s.receivers && q in s.peers {
        CoverKept(s, s', i, r, q);
      } else {
        assert Owes(s'.threads[i], r, q);
      }
    }
  }

  lemma {:induction false} SpawnCovers(s: State, t: Thread)
    requires AllCovered(s)
    ensures AllCovered(s.(threads := s.threads + [t]))
  {
    var s' := s.(threads := s.threads + [t]);
    forall r, q | r in s'.receivers && q in s'.peers && q != r.owner ensures Covered(s', r, q) {
      assert Covered(s, r, q);
      if j :| 0 <= j < |s.threads| && Owes(s.threads[j], r, q) {
        assert s'.threads[j] == s.threads[j];
      }
    }
  }

  lemma {:induction false} HasKey(s: State, q: PeerId, r: Receiver)
    requires Named(s) && r in s.receivers && forall x :: x in TracksOf(s, q) ==> x in s.receivers
    ensures AlreadyHas(TracksOf(s, q), r) <==> r in TracksOf(s, q)
  {
    var l := TracksOf(s, q);
    if i :| 0 <= i < |l| && SameKey(l[i], r) {
      assert l[i] in l;
    }
    if r in l {
      var i :| 0 <= i < |l| && l[i] == r;
      assert SameKey(l[i], r);
    }
  }

  lemma {:induction false} TracksRegistered(s: State, q: PeerId)
    requires AllTracksOk(s)
    ensures forall r :: r in TracksOf(s, q) ==> r in s.receivers && r.owner != q
    ensures NoRepeats(TracksOf(s, q))
  {
    if q in s.tracks {
      assert TracksOk(s, q);
    }
  }

  lemma {:induction false} CoverVisitRouter(s: State, i: nat, q: PeerId)
    requires AllCovered(s) && Enabled(s, VisitRouter(i, q))
    ensures AllCovered(Next(s, VisitRouter(i, q)))
  {
    var s' := Next(s, VisitRouter(i, q));
    var t, t' := s.threads[i], s'.threads[i];
    forall r, p | r in s'.receivers && Owes(t, r, p) ensures Owes(t', r, p) {
      if r.owner == q {
        assert r in ReceiversOf(s, q);
      }
    }
    AllCoverKept(s, s', i);
  }

  lemma {:induction false} CoverVisitSubscriber(s: State, i: nat, q: PeerId)
    requires AllCovered(s) && Enabled(s, VisitSubscriber(i, q))
    ensures AllCovered(Next(s, VisitSubscriber(i, q)))
  {
    var s' := Next(s, VisitSubscriber(i, q));
    var t, t' := s.threads[i], s'.threads[i];
    forall r, p | r in s'.receivers && Owes(t, r, p) ensures Owes(t', r, p) {
      assert t.pc.r == r;
    }
    AllCoverKept(s, s', i);
  }

  lemma {:induction false} CoverLook(s: State, i: nat, r: Receiver)
    requires Inv(s) && Enabled(s, Look(i, r))
    ensures AllCovered(Next(s, Look(i, r)))
  {
    var s' := Next(s, Look(i, r));
    var t, t' := s.threads[i], s'.threads[i];
    var d := t.delivery.value;
    assert ThreadOk(s, t);
    TracksRegistered(s, d.sub);
    HasKey(s, d.sub, r);
    assert forall x :: x in d.work - {r} <==> x in d.work && x != r;
    AllCoverKept(s, s', i);
  }

  lemma {:induction false} CoverTrackSteps(s: State, step: Step)
    requires Inv(s) && Enabled(s, step) && (step.AddTrack? || step.Unlock? || step.Finish?)
    ensures AllCovered(Next(s, step))
  {
    AllCoverKept(s, Next(s, step), step.i);
  }

  lemma {:induction false} CoverHook(s: State, i: nat)
    requires Inv(s) && Enabled(s, Hook(i))
    ensures AllCovered(Next(s, Hook(i)))
  {
    var s' := Next(s, Hook(i));
    var t, t' := s.threads[i], s'.threads[i];
    var d := t.delivery.value;
    assert ThreadOk(s, t);
    forall r, q | r in s'.receivers && Owes(t, r, q) ensures Owes(t', r, q) || r in TracksOf(s', q) {
      if r != d.stage.r {
        assert r in d.work ==> r in d.work - {d.stage.r};
      }
    }
    AllCoverKept(s, s', i);
  }

  lemma {:induction false} CoverAddReceiver(s: State, i: nat)
    requires AllCovered(s) && Enabled(s, AddReceiver(i))
    ensures AllCovered(Next(s, AddReceiver(i)))
  {
    var s' := Next(s, AddReceiver(i));
    var t' := s'.threads[i];
    forall r, q | r in s'.receivers && q in s'.peers && q != r.owner && (r !in s.receivers || q !in s.peers)
      ensures Owes(t', r, q)
    {
      assert r == s.threads[i].pc.r;
    }
    AllCoverKept(s, s', i);
  }

  lemma {:induction false} CoverAddPeer(s: State, i: nat)
    requires Named(s) && AllCovered(s) && Enabled(s, AddPeer(i))
    ensures AllCovered(Next(s, AddPeer(i)))
  {
    var s' := Next(s, AddPeer(i));
    var t' := s'.threads[i];
    forall r, q | r in s'.receivers && q in s'.peers && q != r.owner && (r !in s.receivers || q !in s.peers)
      ensures Owes(t', r, q)
    {
      assert q == s.threads[i].peer;
    }
    AllCoverKept(s, s', i);
  }

  lemma {:induction false} CoverSnapshot(s: State, step: Step)
    requires Named(s) && AllCovered(s) && Enabled(s, step) && (step.SnapshotOthers? || step.SnapshotPeers?)
    requires ThreadOk(s, s.threads[step.i])
    ensures AllCovered(Next(s, step))
  {
    var s' := Next(s, step);
    var t, t' := s.threads[step.i], s'.threads[step.i];
    forall r, q | r in s'.receivers && q in s'.peers && Owes(t, r, q) && q != r.owner ensures Owes(t', r, q) {
    }
    forall r, q | r in s'.receivers && q in s'.peers && q != r.owner ensures Covered(s', r, q) {
      CoverKept(s, s', step.i, r, q);
    }
  }

  lemma {:induction false} CoveredNext(s: State, step: Step)
    requires Inv(s) && Enabled(s, step)
    ensures AllCovered(Next(s, step))
  {
    match step
    case SpawnJoin(p) => SpawnCovers(s, Thread(p, JoinStart, None));
    case SpawnPublish(r) => SpawnCovers(s, Thread(r.owner, PublishStart(r), None));
    case VisitRouter(i, q) => CoverVisitRouter(s, i, q);
    case VisitSubscriber(i, q) => CoverVisitSubscriber(s, i, q);
    case Look(i, r) => CoverLook(s, i, r);
    case AddTrack(i) => CoverTrackSteps(s, step);
    case Hook(i) => CoverHook(s, i);
    case Unlock(i) => CoverTrackSteps(s, step);
    case Finish(i) => CoverTrackSteps(s, step);
    case AddPeer(i) => CoverAddPeer(s, i);
    case AddReceiver(i) => CoverAddReceiver(s, i);
    case SnapshotOthers(i) => CoverSnapshot(s, step);
    case SnapshotPeers(i) => CoverSnapshot(s, step);
  }

  // ---------------------------------------------------------------- names, threads and locks

  predicate Starting(t: Thread) { t.pc.PublishStart? }

  /** Steps that register nothing and start no publish keep names apart. */
  lemma {:induction false} NamedKept(s: State, s': State)
    requires Named(s) && s'.receivers == s.receivers && s.peers <= s'.peers
    requires forall j :: 0 <= j < |s'.threads| && Starting(s'.threads[j]) ==>
               j < |s.threads| && s.threads[j].pc == s'.threads[j].pc
    ensures Named(s')
  {
  }

  lemma {:induction false} NamedAddReceiver(s: State, i: nat)
    requires Named(s) && Enabled(s, AddReceiver(i)) && ThreadOk(s, s.threads[i])
    ensures Named(Next(s, AddReceiver(i)))
  {
    var s' := Next(s, AddReceiver(i));
    forall j | 0 <= j < |s'.threads| && s'.threads[j].pc.PublishStart? ensures Unused(s', s'.threads[j].pc.r) {
      assert s'.threads[j] == s.threads[j];
      assert Unused(s, s.threads[j].pc.r) && Unused(s, s.threads[i].pc.r);
    }
  }

  lemma {:induction false} NamedSpawn(s: State, r: Receiver)
    requires Named(s) && Enabled(s, SpawnPublish(r))
    ensures Named(Next(s, SpawnPublish(r)))
  {
    var s' := Next(s, SpawnPublish(r));
    forall j | 0 <= j < |s'.threads| && s'.threads[j].pc.PublishStart? ensures Unused(s', s'.threads[j].pc.r) {
      if j < |s.threads| {
        assert s'.threads[j] == s.threads[j];
        assert Unused(s, s.threads[j].pc.r);
      }
    }
  }

  lemma {:induction false} NamedNext(s: State, step: Step)
    requires Inv(s) && Enabled(s, step)
    ensures Named(Next(s, step))
  {
    hide Named, Exclusive, AllTracksOk, HooksOk, AllCovered, ThreadOk;
    if step.AddReceiver? {
      NamedAddReceiver(s, step.i);
    } else if step.SpawnPublish? {
      NamedSpawn(s, step.r);
    } else {
      NamedKept(s, Next(s, step));
    }
  }

  lemma {:induction false} ExclusiveNext(s: State, step: Step)
    requires Inv(s) && Enabled(s, step)
    ensures Exclusive(Next(s, step))
  {
    hide Named, ThreadsOk, AllTracksOk, HooksOk, AllCovered, AlreadyHas;
  }

  /** A thread other than the moving one is as sound after the step. */
  lemma {:induction false} OtherThreadOk(s: State, step: Step, j: nat)
    requires Named(s) && ThreadsOk(s) && Exclusive(s) && Enabled(s, step) && j < |s.threads|
    requires !step.SpawnJoin? && !step.SpawnPublish? ==> step.i != j
    ensures ThreadOk(Next(s, step), s.threads[j])
  {
    var t := s.threads[j];
    assert ThreadOk(s, t);
    if step.AddTrack? || step.Hook? {
      assert ThreadOk(s, s.threads[step.i]);
      assert ReceiversOf(Next(s, step), 0) == ReceiversOf(s, 0);
    }
  }

  lemma {:induction false} OwnThreadOk(s: State, step: Step)
    requires Named(s) && AllTracksOk(s) && HooksOk(s) && Enabled(s, step) && !step.SpawnJoin? && !step.SpawnPublish?
    requires ThreadOk(s, s.threads[step.i])
    ensures ThreadOk(Next(s, step), Next(s, step).threads[step.i])
  {
    if step.AddTrack? || step.Hook? || step.Look? {
      OwnDeliveryOk(s, step);
    }
  }

  lemma {:induction false} OwnDeliveryOk(s: State, step: Step)
    requires Named(s) && AllTracksOk(s) && HooksOk(s) && Enabled(s, step) && (step.AddTrack? || step.Hook? || step.Look?)
    requires ThreadOk(s, s.threads[step.i])
    ensures var s', t' := Next(s, step), Next(s, step).threads[step.i];
            && t'.pc == s.threads[step.i].pc && s'.peers == s.peers && s'.receivers == s.receivers
            && t'.delivery.Some? && DeliveryOk(s', t', t'.delivery.value)
  {
    var d := s.threads[step.i].delivery.value;
    assert ReceiversOf(Next(s, step), d.router) == ReceiversOf(s, d.router);
    TracksRegistered(s, d.sub);
    if step.Look? {
      HasKey(s, d.sub, step.r);
    }
  }

  lemma {:induction false} ThreadsNext(s: State, step: Step)
    requires Inv(s) && Enabled(s, step)
    ensures ThreadsOk(Next(s, step))
  {
    var s' := Next(s, step);
    forall j | 0 <= j < |s'.threads| ensures ThreadOk(s', s'.threads[j]) {
      if !step.SpawnJoin? && !step.SpawnPublish? {
        if j == step.i {
          OwnThreadOk(s, step);
        } else {
          OtherThreadOk(s, step, j);
        }
      } else if j < |s.threads| {
        OtherThreadOk(s, step, j);
      }
    }
  }

  // ---------------------------------------------------------------- tracks and hooks

  lemma {:induction false} TracksNext(s: State, step: Step)
    requires Inv(s) && Enabled(s, step)
    ensures AllTracksOk(Next(s, step))
  {
    hide HooksOk, AllCovered, Exclusive;
    var s' := Next(s, step);
    forall q | q in s'.tracks ensures TracksOk(s', q) {
      TracksRegistered(s, q);
      if step.AddTrack? {
        assert ThreadOk(s, s.threads[step.i]);
      }
    }
  }

  /** When tracks and hooks stay, and no thread leaves the hooking stage, so do the hooks' promises. */
  lemma {:induction false} HooksKept(s: State, s': State)
    requires HooksOk(s) && s'.tracks == s.tracks && s'.hooked == s.hooked && |s.threads| <= |s'.threads|
    requires forall j :: 0 <= j < |s.threads| && s.threads[j].delivery.Some? && s.threads[j].delivery.value.stage.Unhooked? ==>
               s'.threads[j].delivery == s.threads[j].delivery
    ensures HooksOk(s')
  {
    forall r, q | r in TracksOf(s', q) && q !in HookedTo(s', r)
      ensures exists i :: 0 <= i < |s'.threads| && Unhooking(s'.threads[i], r, q)
    {
      assert r in TracksOf(s, q) && q !in HookedTo(s, r);
      var i :| 0 <= i < |s.threads| && Unhooking(s.threads[i], r, q);
      assert Unhooking(s'.threads[i], r, q);
    }
    forall r, q | q in HookedTo(s', r) ensures r in TracksOf(s', q) {
      assert q in HookedTo(s, r);
      assert r in TracksOf(s, q);
    }
    forall r | r in s'.hooked ensures NoRepeats(HookedTo(s', r)) {
      assert r in s.hooked && HookedTo(s', r) == HookedTo(s, r);
    }
  }

  lemma {:induction false} HooksAddTrack(s: State, i: nat)
    requires HooksOk(s) && Enabled(s, AddTrack(i))
    ensures HooksOk(Next(s, AddTrack(i)))
  {
    var s' := Next(s, AddTrack(i));
    var d := s.threads[i].delivery.value;
    forall r, q | r in TracksOf(s', q) && q !in HookedTo(s', r)
      ensures exists j :: 0 <= j < |s'.threads| && Unhooking(s'.threads[j], r, q)
    {
      assert q !in HookedTo(s, r);
      if r in TracksOf(s, q) {
        var j :| 0 <= j < |s.threads| && Unhooking(s.threads[j], r, q);
        assert Unhooking(s'.threads[j], r, q);
      } else {
        assert q == d.sub && r == d.stage.r;
        assert Unhooking(s'.threads[i], r, q);
      }
    }
    forall r, q | q in HookedTo(s', r) ensures r in TracksOf(s', q) {
      assert q in HookedTo(s, r);
      assert r in TracksOf(s, q);
    }
    forall r | r in s'.hooked ensures NoRepeats(HookedTo(s', r)) {
      assert r in s.hooked && HookedTo(s', r) == HookedTo(s, r);
    }
  }

  lemma {:induction false} HooksHook(s: State, i: nat)
    requires HooksOk(s) && Enabled(s, Hook(i)) && ThreadOk(s, s.threads[i])
    ensures HooksOk(Next(s, Hook(i)))
  {
    var s' := Next(s, Hook(i));
    var d := s.threads[i].delivery.value;
    var x := d.stage.r;
    forall r, q | r in TracksOf(s', q) && q !in HookedTo(s', r)
      ensures exists j :: 0 <= j < |s'.threads| && Unhooking(s'.threads[j], r, q)
    {
      assert r in TracksOf(s, q) && q !in HookedTo(s, r);
      var j :| 0 <= j < |s.threads| && Unhooking(s.threads[j], r, q);
      assert Unhooking(s'.threads[j], r, q);
    }
    forall r, q | q in HookedTo(s', r) ensures r in TracksOf(s', q) {
      if q !in HookedTo(s, r) {
        assert r == x && q == d.sub;
      } else {
        assert r in TracksOf(s, q);
      }
    }
    forall r | r in s'.hooked ensures NoRepeats(HookedTo(s', r)) {
      if r != x {
        assert r in s.hooked && HookedTo(s', r) == HookedTo(s, r);
      }
    }
  }

  lemma {:induction false} HooksNext(s: State, step: Step)
    requires Inv(s) && Enabled(s, step)
    ensures HooksOk(Next(s, step))
  {
    if step.AddTrack? {
      HooksAddTrack(s, step.i);
    } else if step.Hook? {
      HooksHook(s, step.i);
    } else {
      HooksKept(s, Next(s, step));
    }
  }

  // ---------------------------------------------------------------- every reachable state

  /** Every step of every thread keeps the invariant. */
  lemma {:induction false} InvNext(s: State, step: Step)
    requires Inv(s) && Enabled(s, step)
    ensures Inv(Next(s, step))
  {
    hide Next, Enabled, Named, ThreadsOk, Exclusive, AllTracksOk, HooksOk, AllCovered;
    NamedNext(s, step);
    ThreadsNext(s, step);
    ExclusiveNext(s, step);
    TracksNext(s, step);
    HooksNext(s, step);
    CoveredNext(s, step);
  }

  lemma {:induction false} InvRun(steps: seq<Step>)
    ensures Run(START, steps).Some? ==> Inv(Run(START, steps).value)
  {
    hide Next, Enabled;
    if steps == [] {
    } else {
      InvRun(steps[..|steps| - 1]);
      var s := Run(START, steps[..|steps| - 1]);
      if s.Some? && Enabled(s.value, steps[|steps| - 1]) {
        InvNext(s.value, steps[|steps| - 1]);
      }
    }
  }

  function Count<T(==)>(l: seq<T>, x: T): nat {
    if l == [] then 0 else Count(l[..|l| - 1], x) + if l[|l| - 1] == x then 1 else 0
  }

  lemma {:induction false} CountOnce<T>(l: seq<T>, x: T)
    requires NoRepeats(l)
    ensures Count(l, x) == if x in l then 1 else 0
  {
    if l == [] {
    } else {
      CountOnce(l[..|l| - 1], x);
    }
  }

  /** A thread at work inside a router's lock can always go on. */
  lemma {:induction false} DeliveryGoesOn(s: State, i: nat) returns (step: Step)
    requires i < |s.threads| && s.threads[i].delivery.Some?
    ensures Enabled(s, step) && !step.SpawnJoin? && !step.SpawnPublish?
  {
    var d := s.threads[i].delivery.value;
    match d.stage
    case Missing(r) => step := AddTrack(i);
    case Unhooked(r) => step := Hook(i);
    case Looking =>
      if r :| r in d.work {
        step := Look(i, r);
      } else {
        step := Unlock(i);
      }
  }

  /** No interleaving blocks: until every thread has come to its end, some thread can take a step. */
  lemma {:induction false} NoDeadlock(s: State) returns (step: Step)
    requires !Quiet(s)
    ensures Enabled(s, step) && !step.SpawnJoin? && !step.SpawnPublish?
  {
    if i :| 0 <= i < |s.threads| && s.threads[i].delivery.Some? {
      step := DeliveryGoesOn(s, i);
    } else {
      var i :| 0 <= i < |s.threads| && s.threads[i].pc != Finished;
      match s.threads[i].pc
      case JoinStart => step := AddPeer(i);
      case JoinAdded => step := SnapshotOthers(i);
      case Subscribing(others) =>
        if q :| q in others {
          step := VisitRouter(i, q);
        } else {
          step := Finish(i);
        }
      case PublishStart(r) => step := AddReceiver(i);
      case Registered(r) => step := SnapshotPeers(i);
      case Publishing(r, others) =>
        if q :| q in others {
          step := VisitSubscriber(i, q);
        } else {
          step := Finish(i);
        }
    }
  }

  /**
   Under every interleaving, when all joins and publishes have come to their end, every
   peer holds exactly one down track for each other peer's track and none for its own,
   and every receiver serves exactly those subscribers, each once.
   */
  lemma {:induction false} MeshComplete(steps: seq<Step>, r: Receiver, q: PeerId)
    requires Run(START, steps).Some? && Quiet(Run(START, steps).value)
    requires var s := Run(START, steps).value; r in s.receivers && q in s.peers
    ensures var s := Run(START, steps).value;
            && Count(TracksOf(s, q), r) == (if q == r.owner then 0 else 1)
            && Count(HookedTo(s, r), q) == (if q == r.owner then 0 else 1)
  {
    InvRun(steps);
    QuietMesh(Run(START, steps).value, r, q);
  }

  lemma {:induction false} QuietMesh(s: State, r: Receiver, q: PeerId)
    requires Inv(s) && Quiet(s) && r in s.receivers && q in s.peers
    ensures Count(TracksOf(s, q), r) == (if q == r.owner then 0 else 1)
    ensures Count(HookedTo(s, r), q) == (if q == r.owner then 0 else 1)
  {
    TracksRegistered(s, q);
    CountOnce(TracksOf(s, q), r);
    if r in s.hooked {
      CountOnce(HookedTo(s, r), q);
    }
    if q != r.owner {
      assert Covered(s, r, q);
    }
    assert r in TracksOf(s, q) <==> q != r.owner;
    assert q in HookedTo(s, r) <==> r in TracksOf(s, q);
  }
}
