/**
 Joining and publishing as a concurrent protocol.  Every lock-protected section is an
 atomic step; what a thread does between two sections is part of its own state.  A router's
 lock is held over several steps, since filling a subscriber locks that subscriber anew for
 each look and each change.

 AddPeer is one step here although the program writes the map of peers under the read lock
 (internal/sfu/session.go:42-44), which does not keep two joins, or a join and a snapshot,
 apart: that they do not meet inside these sections is assumed.
 */
module Mesh {
  import opened Words

  type PeerId = nat

  /** A published track, known to subscribers by stream and track name. */
  datatype Receiver = Receiver(owner: PeerId, streamID: string, trackID: string)

  /** Inside AddDownTracks, holding the router's lock: what is still to deliver to whom. */
  datatype Delivery = Delivery(router: PeerId, sub: PeerId, work: set<Receiver>, stage: Stage)

  /** The next receiver was found missing; it was added to the subscriber but not yet hooked to its receiver. */
  datatype Stage = Looking | Missing(r: Receiver) | Unhooked(r: Receiver)

  datatype Pc =
    | JoinStart                                      // before AddPeer
    | JoinAdded                                      // before Subscribe's snapshot
    | Subscribing(others: set<PeerId>)               // routers still to visit
    | PublishStart(r: Receiver)                      // before AddReceiver
    | Registered(r: Receiver)                        // before Publish's snapshot
    | Publishing(r: Receiver, others: set<PeerId>)   // subscribers still to visit
    | Finished

  datatype Thread = Thread(peer: PeerId, pc: Pc, delivery: Option<Delivery>)

  datatype State = State(
    peers: set<PeerId>,
    receivers: set<Receiver>,
    tracks: map<PeerId, seq<Receiver>>,    // down tracks of each subscriber
    hooked: map<Receiver, seq<PeerId>>,    // down tracks of each receiver
    threads: seq<Thread>)

  const START := State({}, {}, map[], map[], [])

  function TracksOf(s: State, q: PeerId): seq<Receiver> { if q in s.tracks then s.tracks[q] else [] }
  function HookedTo(s: State, r: Receiver): seq<PeerId> { if r in s.hooked then s.hooked[r] else [] }

  predicate SameKey(a: Receiver, b: Receiver) { a.streamID == b.streamID && a.trackID == b.trackID }

  /** addDownTrack's look for a duplicate. */
  predicate AlreadyHas(tracks: seq<Receiver>, r: Receiver) {
    exists i :: 0 <= i < |tracks| && SameKey(tracks[i], r)
  }

  predicate Holds(t: Thread, p: PeerId) { t.delivery.Some? && t.delivery.value.router == p }

  predicate Unlocked(s: State, p: PeerId) {
    forall i :: 0 <= i < |s.threads| ==> !Holds(s.threads[i], p)
  }

  /** No other track, registered or about to be, carries these names. */
  predicate Unused(s: State, r: Receiver) {
    && (forall x :: x in s.receivers && SameKey(x, r) ==> x == r)
    && (forall i :: 0 <= i < |s.threads| && s.threads[i].pc.PublishStart? && SameKey(s.threads[i].pc.r, r) ==>
          s.threads[i].pc.r == r)
  }

  function ReceiversOf(s: State, p: PeerId): set<Receiver> { set r | r in s.receivers && r.owner == p }

  // ---------------------------------------------------------------- steps

  datatype Step =
    | SpawnJoin(p: PeerId)
    | SpawnPublish(r: Receiver)
    | AddPeer(i: nat)
    | SnapshotOthers(i: nat)
    | VisitRouter(i: nat, q: PeerId)
    | AddReceiver(i: nat)
    | SnapshotPeers(i: nat)
    | VisitSubscriber(i: nat, q: PeerId)
    | Look(i: nat, r: Receiver)
    | AddTrack(i: nat)
    | Hook(i: nat)
    | Unlock(i: nat)
    | Finish(i: nat)

  /** Peers join once, publish after they joined, and no two tracks carry the same names. */
  predicate Enabled(s: State, step: Step) {
    match step
    case SpawnJoin(p) => p !in s.peers && forall i :: 0 <= i < |s.threads| ==> s.threads[i].peer != p
    case SpawnPublish(r) => r.owner in s.peers && Unused(s, r)
    case AddPeer(i) => i < |s.threads| && s.threads[i].pc == JoinStart
    case SnapshotOthers(i) => i < |s.threads| && s.threads[i].pc == JoinAdded
    case VisitRouter(i, q) =>
      i < |s.threads| && s.threads[i].pc.Subscribing? && q in s.threads[i].pc.others
      && s.threads[i].delivery == None && Unlocked(s, q)
    case AddReceiver(i) =>
      i < |s.threads| && s.threads[i].pc.PublishStart? && Unlocked(s, s.threads[i].peer)
    case SnapshotPeers(i) => i < |s.threads| && s.threads[i].pc.Registered?
    case VisitSubscriber(i, q) =>
      i < |s.threads| && s.threads[i].pc.Publishing? && q in s.threads[i].pc.others
      && s.threads[i].delivery == None && Unlocked(s, s.threads[i].peer)
    case Look(i, r) => i < |s.threads| && Delivering(s.threads[i], Looking) && r in s.threads[i].delivery.value.work
    case AddTrack(i) => i < |s.threads| && s.threads[i].delivery.Some? && s.threads[i].delivery.value.stage.Missing?
    case Hook(i) => i < |s.threads| && s.threads[i].delivery.Some? && s.threads[i].delivery.value.stage.Unhooked?
    case Unlock(i) => i < |s.threads| && Delivering(s.threads[i], Looking) && s.threads[i].delivery.value.work == {}
    case Finish(i) =>
      i < |s.threads| && s.threads[i].delivery == None
      && match s.threads[i].pc
         case Subscribing(others) => others == {}
         case Publishing(_, others) => others == {}
         case _ => false
  }

  predicate Delivering(t: Thread, stage: Stage) { t.delivery.Some? && t.delivery.value.stage == stage }

  function WithThread(s: State, i: nat, t: Thread): State
    requires i < |s.threads|
  {
    s.(threads := s.threads[i := t])
  }

  function SetPc(s: State, i: nat, pc: Pc): State
    requires i < |s.threads|
  {
    WithThread(s, i, s.threads[i].(pc := pc))
  }

  function SetDelivery(s: State, i: nat, d: Option<Delivery>): State
    requires i < |s.threads|
  {
    WithThread(s, i, s.threads[i].(delivery := d))
  }

  function Next(s: State, step: Step): State
    requires Enabled(s, step)
  {
    match step
    case SpawnJoin(p) => s.(threads := s.threads + [Thread(p, JoinStart, None)])
    case SpawnPublish(r) => s.(threads := s.threads + [Thread(r.owner, PublishStart(r), None)])
    case AddPeer(i) => SetPc(s.(peers := s.peers + {s.threads[i].peer}), i, JoinAdded)
    case SnapshotOthers(i) => SetPc(s, i, Subscribing(s.peers - {s.threads[i].peer}))
    case VisitRouter(i, q) =>
      var t := s.threads[i];
      WithThread(s, i, Thread(t.peer, Subscribing(t.pc.others - {q}),
                              Some(Delivery(q, t.peer, ReceiversOf(s, q), Looking))))
    case AddReceiver(i) =>
      var t := s.threads[i];
      if exists r :: r in s.receivers && r.owner == t.peer && r.trackID == t.pc.r.trackID then SetPc(s, i, Finished)
      else SetPc(s.(receivers := s.receivers + {t.pc.r}), i, Registered(t.pc.r))
    case SnapshotPeers(i) => SetPc(s, i, Publishing(s.threads[i].pc.r, s.peers - {s.threads[i].peer}))
    case VisitSubscriber(i, q) =>
      var t := s.threads[i];
      WithThread(s, i, Thread(t.peer, Publishing(t.pc.r, t.pc.others - {q}),
                              Some(Delivery(t.peer, q, {t.pc.r}, Looking))))
    case Look(i, r) =>
      var d := s.threads[i].delivery.value;
      if AlreadyHas(TracksOf(s, d.sub), r) then SetDelivery(s, i, Some(d.(work := d.work - {r})))
      else SetDelivery(s, i, Some(d.(stage := Missing(r))))
    case AddTrack(i) =>
      var d := s.threads[i].delivery.value;
      SetDelivery(s.(tracks := s.tracks[d.sub := TracksOf(s, d.sub) + [d.stage.r]]),
                  i, Some(d.(stage := Unhooked(d.stage.r))))
    case Hook(i) =>
      var d := s.threads[i].delivery.value;
      SetDelivery(s.(hooked := s.hooked[d.stage.r := HookedTo(s, d.stage.r) + [d.sub]]),
                  i, Some(d.(work := d.work - {d.stage.r}, stage := Looking)))
    case Unlock(i) => SetDelivery(s, i, None)
    case Finish(i) => SetPc(s, i, Finished)
  }

  function Run(s: State, steps: seq<Step>): Option<State> {
    if steps == [] then Some(s)
    else match Run(s, steps[..|steps| - 1])
      case None => None
      case Some(t) => if Enabled(t, steps[|steps| - 1]) then Some(Next(t, steps[|steps| - 1])) else None
  }

  /** Every thread started has come to its end. */
  predicate Quiet(s: State) {
    forall i :: 0 <= i < |s.threads| ==> s.threads[i].pc == Finished && s.threads[i].delivery == None
  }
}
