/**
 The objects behind the mesh: a subscriber's tracks by stream, a router's receivers by
 track name, and a session's peers, updated in place by publishing and subscribing.
 */
module MeshObjects {
  import opened Words
  import opened Mesh
  import opened MeshSafety

  /** The tracks of one stream, in the order they were added. */
  function OfStream(order: seq<Receiver>, streamID: string): (r: seq<Receiver>)
    ensures forall x :: x in r <==> x in order && x.streamID == streamID
  {
    if order == [] then []
    else
      var last := order[|order| - 1];
      if last.streamID == streamID then OfStream(order[..|order| - 1], streamID) + [last]
      else OfStream(order[..|order| - 1], streamID)
  }

  class Subscriber {
    const id: PeerId
    var tracks: map<string, seq<Receiver>>
    var negotiations: nat
    ghost var order: seq<Receiver>

    ghost predicate Valid()
      reads this
    {
      forall s: string :: OfStream(order, s) == if s in tracks then tracks[s] else []
    }

    constructor (id: PeerId)
      ensures Valid() && this.id == id && order == [] && negotiations == 0
    {
      this.id, tracks, negotiations, order := id, map[], 0, [];
    }

    method GetDownTracks(sid: string) returns (dts: seq<Receiver>)
      requires Valid()
      ensures dts == OfStream(order, sid)
    {
      dts := if sid in tracks then tracks[sid] else [];
    }

    method AddDownTrack(track: Receiver)
      requires Valid()
      modifies this`tracks, this`order
      ensures Valid() && order == old(order) + [track]
    {
      var streamID := track.streamID;
      if streamID in tracks {
        var dt := tracks[streamID] + [track];
        tracks := tracks[streamID := dt];
      } else {
        tracks := tracks[streamID := [track]];
      }
      order := order + [track];
      assert order[..|order| - 1] == old(order);
    }

    /** Asks for a renegotiation. */
    method Negotiate()
      requires Valid()
      modifies this`negotiations
      ensures Valid() && negotiations == old(negotiations) + 1
    {
      negotiations := negotiations + 1;
    }
  }

  /** The publisher's side of one track, with the subscribers it sends to. */
  class PublishedTrack {
    const r: Receiver
    var downTracks: seq<PeerId>

    constructor (r: Receiver)
      ensures this.r == r && downTracks == []
    {
      this.r, downTracks := r, [];
    }

    method AddDownTrack(q: PeerId)
      modifies this
      ensures downTracks == old(downTracks) + [q]
    {
      downTracks := downTracks + [q];
    }
  }

  class Router {
    const id: PeerId
    var receivers: map<string, PublishedTrack>

    ghost predicate Valid()
      reads this
    {
      forall k :: k in receivers ==> receivers[k].r.trackID == k && receivers[k].r.owner == id
    }

    constructor (id: PeerId)
      ensures Valid() && this.id == id && receivers == map[]
    {
      this.id, receivers := id, map[];
    }

    /** A track name is published once: another layer of it joins the same receiver. */
    method AddReceiver(r: Receiver) returns (recv: PublishedTrack, publish: bool)
      requires Valid() && r.owner == id
      modifies this
      ensures Valid() && publish == (r.trackID !in old(receivers))
      ensures receivers == old(receivers)[r.trackID := recv]
      ensures !publish ==> recv == old(receivers)[r.trackID]
      ensures publish ==> fresh(recv) && recv.r == r && recv.downTracks == []
    {
      publish := r.trackID !in receivers;
      if publish {
        recv := new PublishedTrack(r);
        receivers := receivers[r.trackID := recv];
      } else {
        recv := receivers[r.trackID];
      }
    }

    /**
     One track for one subscriber, unless it has it already; made says whether the media
     library made the down track and its transceiver.
     */
    method AddDownTrack(sub: Subscriber, recv: PublishedTrack, made: bool) returns (ok: bool)
      requires sub.Valid()
      modifies sub`tracks, sub`order, recv
      ensures sub.Valid() && (ok <==> made || AlreadyHas(old(sub.order), recv.r))
      ensures sub.order == if ok then Delivered(old(sub.order), recv.r) else old(sub.order)
      ensures recv.downTracks ==
              old(recv.downTracks) + if ok && !AlreadyHas(old(sub.order), recv.r) then [sub.id] else []
    {
      var dts := sub.GetDownTracks(recv.r.streamID);
      for i := 0 to |dts|
        invariant forall j :: 0 <= j < i ==> dts[j].trackID != recv.r.trackID
      {
        if dts[i].trackID == recv.r.trackID {
          NotInStream(sub.order, recv.r);
          return true;
        }
      }
      NotInStream(sub.order, recv.r);
      if !made {
        return false;
      }
      sub.AddDownTrack(recv.r);
      recv.AddDownTrack(sub.id);
      return true;
    }

    /**
     Every track of this router that the subscriber lacks, each once, in some order.  The
     first one that cannot be made ends it, without a renegotiation.
     */
    method AddAllDownTracks(sub: Subscriber, refused: set<PublishedTrack>) returns (ghost added: seq<Receiver>, ok: bool)
      requires Valid() && sub.Valid()
      modifies sub, receivers.Values
      ensures sub.Valid() && sub.order == old(sub.order) + added && NoRepeats(added)
      ensures ok <==> forall t :: t in receivers.Values && t in refused ==> AlreadyHas(old(sub.order), t.r)
      ensures forall t :: t in receivers.Values && t.r in added ==> !AlreadyHas(old(sub.order), t.r) && t !in refused
      ensures ok ==> forall t :: t in receivers.Values && !AlreadyHas(old(sub.order), t.r) ==> t.r in added
      ensures forall x :: x in added ==> x.owner == id && exists t :: t in receivers.Values && t.r == x
      ensures forall t :: t in receivers.Values ==>
                t.downTracks == old(t.downTracks) + if t.r in added then [sub.id] else []
      ensures sub.negotiations == old(sub.negotiations) + if ok && receivers != map[] then 1 else 0
    {
      hide AlreadyHas, OfStream, Subscriber.Valid;
      added, ok := AddEachDownTrack(sub, refused);
      if ok && receivers != map[] {
        sub.Negotiate();
      }
    }

    method AddEachDownTrack(sub: Subscriber, refused: set<PublishedTrack>) returns (ghost added: seq<Receiver>, ok: bool)
      requires Valid() && sub.Valid()
      modifies sub`tracks, sub`order, receivers.Values
      ensures sub.Valid() && sub.order == old(sub.order) + added && NoRepeats(added)
      ensures ok <==> forall k :: k in receivers && receivers[k] in refused ==> AlreadyHas(old(sub.order), receivers[k].r)
      ensures forall k :: k in receivers && receivers[k].r in added ==>
                !AlreadyHas(old(sub.order), receivers[k].r) && receivers[k] !in refused
      ensures ok ==> forall k :: k in receivers && !AlreadyHas(old(sub.order), receivers[k].r) ==> receivers[k].r in added
      ensures forall x :: x in added ==> x.trackID in receivers && receivers[x.trackID].r == x
      ensures forall k :: k in receivers ==>
                var t := receivers[k];
                t.downTracks == old(t.downTracks) + if t.r in added then [sub.id] else []
    {
      hide AlreadyHas, OfStream, Delivered, Subscriber.Valid;
      added, ok := [], true;
      var left := receivers.Keys;
      while left != {}
        invariant left <= receivers.Keys && ok
        invariant sub.Valid() && sub.order == old(sub.order) + added && NoRepeats(added)
        invariant forall k :: k in receivers ==>
                    (receivers[k].r in added <==> k !in left && !AlreadyHas(old(sub.order), receivers[k].r))
        invariant forall k :: k in receivers && k !in left && receivers[k] in refused ==>
                    AlreadyHas(old(sub.order), receivers[k].r)
        invariant forall x :: x in added ==> x.trackID in receivers && receivers[x.trackID].r == x
        invariant forall k :: k in receivers ==>
                    var t := receivers[k];
                    t.downTracks == old(t.downTracks) + if t.r in added then [sub.id] else []
        decreases left
      {
        var k :| k in left;
        var recv := receivers[k];
        HasAfter(old(sub.order), added, recv.r);
        DeliveredIs(sub.order, recv.r);
        ok := AddDownTrack(sub, recv, recv !in refused);
        if !ok {
          return;
        }
        if !AlreadyHas(old(sub.order), recv.r) {
          added := added + [recv.r];
        }
        left := left - {k};
      }
    }

    /** Delivering one track: a renegotiation is asked for even if it was there, but not if it cannot be made. */
    method AddOneDownTrack(sub: Subscriber, recv: PublishedTrack, made: bool) returns (ok: bool)
      requires sub.Valid()
      modifies sub, recv
      ensures sub.Valid() && (ok <==> made || AlreadyHas(old(sub.order), recv.r))
      ensures sub.negotiations == old(sub.negotiations) + if ok then 1 else 0
      ensures sub.order == if ok then Delivered(old(sub.order), recv.r) else old(sub.order)
      ensures recv.downTracks ==
              old(recv.downTracks) + if ok && !AlreadyHas(old(sub.order), recv.r) then [sub.id] else []
    {
      ok := AddDownTrack(sub, recv, made);
      if ok {
        sub.Negotiate();
      }
    }
  }

  datatype Peer = Peer(subscriber: Subscriber, router: Router)

  class Session {
    var peers: map<PeerId, Peer>

    ghost predicate Valid()
      reads this, set p | p in peers :: peers[p].subscriber, set p | p in peers :: peers[p].router
    {
      forall p :: p in peers ==>
        && peers[p].subscriber.id == p && peers[p].subscriber.Valid()
        && peers[p].router.id == p && peers[p].router.Valid()
    }

    constructor ()
      ensures Valid() && peers == map[]
    {
      peers := map[];
    }

    method AddPeer(id: PeerId, peer: Peer)
      requires Valid() && peer.subscriber.id == id == peer.router.id && peer.subscriber.Valid() && peer.router.Valid()
      modifies this
      ensures Valid() && peers == old(peers)[id := peer]
    {
      peers := peers[id := peer];
    }

    /** A snapshot of the peers, in some order. */
    method Peers() returns (ps: seq<Peer>)
      requires Valid()
      ensures Snapshot(ps)
    {
      ps := [];
      var left := peers.Keys;
      while left != {}
        invariant left <= peers.Keys
        invariant forall p :: p in ps ==> p.subscriber.id in peers && p.subscriber.id !in left && peers[p.subscriber.id] == p
        invariant forall i, j :: 0 <= i < j < |ps| ==> ps[i].subscriber.id != ps[j].subscriber.id
        invariant forall p :: p in peers && p !in left ==> peers[p] in ps
        decreases left
      {
        var p :| p in left;
        ps := ps + [peers[p]];
        left := left - {p};
      }
    }

    ghost predicate Snapshot(ps: seq<Peer>)
      reads this
    {
      && (forall p :: p in ps ==> p.subscriber.id in peers && peers[p.subscriber.id] == p)
      && (forall i, j :: 0 <= i < j < |ps| ==> ps[i].subscriber.id != ps[j].subscriber.id)
      && (forall p :: p in peers ==> peers[p] in ps)
    }

    /** Every other peer gets the new track, and is served by it, exactly once; those it is refused for are passed over. */
    method Publish(router: Router, recv: PublishedTrack, refused: set<PeerId>) returns (ghost given: seq<PeerId>)
      requires Valid()
      modifies set p | p in peers :: peers[p].subscriber, recv
      ensures Valid() && peers == old(peers)
      ensures forall p :: p in peers ==>
                peers[p].subscriber.order ==
                Published(old(peers[p].subscriber.order), p == router.id || p in refused, recv.r)
      ensures recv.downTracks == old(recv.downTracks) + given && NoRepeats(given)
      ensures forall p :: p in peers ==>
                (p in given <==> p != router.id && p !in refused && !AlreadyHas(old(peers[p].subscriber.order), recv.r))
    {
      hide AlreadyHas, OfStream, Published, Router.Valid;
      var ps := Peers();
      given := PublishTo(ps, router, recv, refused);
      forall p | p in peers
        ensures exists i :: 0 <= i < |ps| && ps[i] == peers[p]
      {
        assert peers[p] in ps;
      }
    }

    method PublishTo(ps: seq<Peer>, router: Router, recv: PublishedTrack, refused: set<PeerId>)
        returns (ghost given: seq<PeerId>)
      requires forall i :: 0 <= i < |ps| ==> ps[i].subscriber.Valid()
      requires forall i, j :: 0 <= i < j < |ps| ==> ps[i].subscriber.id != ps[j].subscriber.id
      modifies set p | p in ps :: p.subscriber, recv
      ensures forall i :: 0 <= i < |ps| ==> ps[i].subscriber.Valid()
      ensures forall i :: 0 <= i < |ps| ==>
                var sub := ps[i].subscriber;
                && sub.order == Published(old(sub.order), sub.id == router.id || sub.id in refused, recv.r)
                && (sub.id in given <==> sub.id != router.id && sub.id !in refused && !AlreadyHas(old(sub.order), recv.r))
      ensures recv.downTracks == old(recv.downTracks) + given
      ensures |given| <= |ps| && NoRepeats(given)
    {
      hide AlreadyHas, OfStream, Published;
      given := [];
      for k := 0 to |ps|
        invariant forall i :: 0 <= i < |ps| ==> ps[i].subscriber.Valid()
        invariant forall i :: k <= i < |ps| ==> ps[i].subscriber.order == old(ps[i].subscriber.order)
        invariant forall i :: 0 <= i < k ==>
                    var sub := ps[i].subscriber;
                    && sub.order == Published(old(sub.order), sub.id == router.id || sub.id in refused, recv.r)
                    && (sub.id in given <==>
                        sub.id != router.id && sub.id !in refused && !AlreadyHas(old(sub.order), recv.r))
        invariant recv.downTracks == old(recv.downTracks) + given
        invariant |given| <= k && NoRepeats(given)
        invariant forall i :: k <= i < |ps| ==> ps[i].subscriber.id !in given
      {
        var sub := ps[k].subscriber;
        PublishedIs(sub.order, recv.r);
        if router.id != sub.id {
          var ok := router.AddOneDownTrack(sub, recv, sub.id !in refused);
          if sub.id !in refused && !AlreadyHas(old(sub.order), recv.r) {
            given := given + [sub.id];
          }
        }
      }
    }

    /** One router's turn, among all the tracks of the session. */
    method SubscribeOne(
        router: Router, sub: Subscriber, refused: set<PublishedTrack>,
        ghost tracks: set<PublishedTrack>, ghost visited: set<PeerId>)
        returns (ghost more: seq<Receiver>)
      requires sub.Valid() && router.Valid()
      requires forall t :: t in tracks ==> (t in router.receivers.Values <==> t.r.owner == router.id)
      requires router.receivers.Values <= tracks && Served(tracks, visited, refused, sub.order)
      modifies sub, router.receivers.Values
      ensures sub.Valid() && sub.order == old(sub.order) + more && sub.negotiations >= old(sub.negotiations)
      ensures Served(tracks, visited + {router.id}, refused, sub.order)
      ensures forall x :: x in more ==> x.owner == router.id
      ensures forall t :: t in tracks ==> t.downTracks == old(t.downTracks) + if t.r in more then [sub.id] else []
    {
      hide AlreadyHas, OfStream, Subscriber.Valid, Router.Valid;
      var ok;
      more, ok := router.AddAllDownTracks(sub, refused);
      ServedOneMore(tracks, visited, refused, old(sub.order), more, router.id, router.receivers.Values);
    }

    /** A joining peer of the session takes a snapshot of the others and subscribes to each. */
    method Subscribe(peer: PeerId, refused: set<PublishedTrack>) returns (ghost added: seq<Receiver>)
      requires Valid() && peer in peers
      modifies peers[peer].subscriber, set p, t | p in peers && t in peers[p].router.receivers.Values :: t
      ensures peers == old(peers) && peers[peer].subscriber.Valid()
      ensures peers[peer].subscriber.order == old(peers[peer].subscriber.order) + added
      ensures peers[peer].subscriber.negotiations > old(peers[peer].subscriber.negotiations)
      ensures forall p, t :: p in peers && p != peer && t in peers[p].router.receivers.Values
                             && peers[p].router.receivers.Values !! refused ==>
                AlreadyHas(peers[peer].subscriber.order, t.r)
      ensures forall x :: x in added ==> x.owner != peer
      ensures forall p, t :: p in peers && t in peers[p].router.receivers.Values ==>
                t.downTracks == old(t.downTracks) + if t.r in added then [peer] else []
    {
      hide AlreadyHas, OfStream, Subscriber.Valid;
      var ps := Peers();
      SnapshotTracks(ps);
      added := SubscribeTo(ps, peers[peer].subscriber, refused);
    }

    /** The tracks of the snapshot are the tracks of the session's routers. */
    lemma {:induction false} SnapshotTracks(ps: seq<Peer>)
      requires Valid() && Snapshot(ps)
      ensures forall i :: 0 <= i < |ps| ==> ps[i].router.Valid()
      ensures forall i, j :: 0 <= i < j < |ps| ==> ps[i].router.id != ps[j].router.id
      ensures forall t :: t in AllTracks(ps) <==> exists p :: p in peers && t in peers[p].router.receivers.Values
      ensures forall p, t :: p in peers && t in peers[p].router.receivers.Values ==> t.r.owner == p
    {
      hide Subscriber.Valid;
      forall t ensures t in AllTracks(ps) <==> exists p :: p in peers && t in peers[p].router.receivers.Values {
        if p :| p in peers && t in peers[p].router.receivers.Values {
          assert peers[p] in ps;
        }
        if i :| 0 <= i < |ps| && t in ps[i].router.receivers.Values {
          assert peers[ps[i].subscriber.id] == ps[i];
        }
      }
    }

    /**
     A joining subscriber gets what it lacks of every other router in the snapshot: each
     track once, served by its receiver.  It has them all but those of routers that a
     refusal cut short.
     */
    method SubscribeTo(ps: seq<Peer>, sub: Subscriber, refused: set<PublishedTrack>) returns (ghost added: seq<Receiver>)
      requires sub.Valid() && forall i :: 0 <= i < |ps| ==> ps[i].router.Valid()
      requires forall i, j :: 0 <= i < j < |ps| ==> ps[i].router.id != ps[j].router.id
      modifies sub, AllTracks(ps)
      ensures sub.Valid() && sub.order == old(sub.order) + added && sub.negotiations > old(sub.negotiations)
      ensures forall t :: t in old(AllTracks(ps)) && t.r.owner != sub.id && Willing(old(AllTracks(ps)), refused, t.r.owner) ==>
                AlreadyHas(sub.order, t.r)
      ensures forall x :: x in added ==> x.owner != sub.id
      ensures forall t :: t in old(AllTracks(ps)) ==>
                t.downTracks == old(t.downTracks) + if t.r in added then [sub.id] else []
    {
      hide AlreadyHas, OfStream, Subscriber.Valid, Router.Valid, AllTracks, Served;
      added := [];
      ghost var tracks, visited := AllTracks(ps), {};
      ServedNone(tracks, refused, sub.order);
      OwnRouter(ps);
      for n := 0 to |ps|
        invariant sub.Valid() && sub.order == old(sub.order) + added && sub.negotiations >= old(sub.negotiations)
        invariant forall i :: 0 <= i < |ps| ==> (ps[i].router.id in visited <==> i < n)
        invariant Served(tracks, visited - {sub.id}, refused, sub.order)
        invariant forall x :: x in added ==> x.owner != sub.id && x.owner in visited
        invariant forall t :: t in tracks ==> t.downTracks == old(t.downTracks) + if t.r in added then [sub.id] else []
      {
        var router := ps[n].router;
        if router.id != sub.id {
          ghost var more := SubscribeOne(router, sub, refused, tracks, visited - {sub.id});
          added := added + more;
        }
        assert visited + {router.id} - {sub.id} ==
               if router.id == sub.id then visited - {sub.id} else visited - {sub.id} + {router.id};
        visited := visited + {router.id};
      }
      ServedAll(ps, visited, sub, refused);
      sub.Negotiate();
    }
  }

  /** No track of this owner is refused. */
  ghost predicate Willing(tracks: set<PublishedTrack>, refused: set<PublishedTrack>, owner: PeerId) {
    forall t :: t in tracks && t.r.owner == owner ==> t !in refused
  }

  /** The tracks of every willing owner among those visited are there. */
  ghost predicate Served(
      tracks: set<PublishedTrack>, visited: set<PeerId>, refused: set<PublishedTrack>, order: seq<Receiver>)
  {
    forall t :: t in tracks && t.r.owner in visited && Willing(tracks, refused, t.r.owner) ==> AlreadyHas(order, t.r)
  }

  lemma {:induction false} ServedNone(tracks: set<PublishedTrack>, refused: set<PublishedTrack>, order: seq<Receiver>)
    ensures forall me: PeerId :: Served(tracks, {} - {me}, refused, order)
  {
  }

  lemma {:induction false} ServedAll(ps: seq<Peer>, visited: set<PeerId>, sub: Subscriber, refused: set<PublishedTrack>)
    requires forall i :: 0 <= i < |ps| ==> ps[i].router.Valid()
    requires forall i, j :: 0 <= i < j < |ps| ==> ps[i].router.id != ps[j].router.id
    requires forall i :: 0 <= i < |ps| ==> ps[i].router.id in visited
    requires Served(AllTracks(ps), visited - {sub.id}, refused, sub.order)
    ensures forall t :: t in AllTracks(ps) && t.r.owner != sub.id && Willing(AllTracks(ps), refused, t.r.owner) ==>
              AlreadyHas(sub.order, t.r)
  {
    hide AlreadyHas, Router.Valid, AllTracks, Willing;
    OwnRouter(ps);
  }

  /** One more owner's tracks are there when nothing is lost and none of them is refused. */
  lemma {:induction false} ServedOneMore(
      tracks: set<PublishedTrack>, visited: set<PeerId>, refused: set<PublishedTrack>,
      before: seq<Receiver>, more: seq<Receiver>, owner: PeerId, own: set<PublishedTrack>)
    requires Served(tracks, visited, refused, before)
    requires own <= tracks && forall t :: t in tracks ==> (t in own <==> t.r.owner == owner)
    requires own !! refused ==> forall t :: t in own ==> AlreadyHas(before, t.r) || t.r in more
    ensures Served(tracks, visited + {owner}, refused, before + more)
  {
    hide AlreadyHas;
    forall t | t in tracks && t.r.owner in visited + {owner} && Willing(tracks, refused, t.r.owner)
      ensures AlreadyHas(before + more, t.r)
    {
      if t.r.owner == owner {
        assert own !! refused;
      }
      StillHas(before, more, t.r);
    }
  }

  ghost function AllTracks(ps: seq<Peer>): set<PublishedTrack>
    reads set p | p in ps :: p.router
  {
    set i, t | 0 <= i < |ps| && t in ps[i].router.receivers.Values :: t
  }

  /** Each track belongs to its owner's router and no other. */
  lemma {:induction false} OwnRouter(ps: seq<Peer>)
    requires forall i :: 0 <= i < |ps| ==> ps[i].router.Valid()
    requires forall i, j :: 0 <= i < j < |ps| ==> ps[i].router.id != ps[j].router.id
    ensures forall i, t :: 0 <= i < |ps| && t in AllTracks(ps) ==>
              (t in ps[i].router.receivers.Values <==> t.r.owner == ps[i].router.id)
    ensures forall i :: 0 <= i < |ps| ==> ps[i].router.receivers.Values <= AllTracks(ps)
    ensures forall t :: t in AllTracks(ps) ==> exists i :: 0 <= i < |ps| && ps[i].router.id == t.r.owner
  {
  }

  lemma {:induction false} StillHas(order: seq<Receiver>, added: seq<Receiver>, r: Receiver)
    requires AlreadyHas(order, r) || r in added
    ensures AlreadyHas(order + added, r)
  {
    if AlreadyHas(order, r) {
      var i :| 0 <= i < |order| && SameKey(order[i], r);
      assert SameKey((order + added)[i], r);
    } else {
      var i :| 0 <= i < |added| && added[i] == r;
      assert SameKey((order + added)[|order| + i], r);
    }
  }

  /** What publishing r does to the tracks of one subscriber, unless that is passed over. */
  function Published(order: seq<Receiver>, passedOver: bool, r: Receiver): seq<Receiver> {
    if passedOver then order else Delivered(order, r)
  }

  lemma {:induction false} PublishedIs(order: seq<Receiver>, r: Receiver)
    ensures Published(order, true, r) == order
    ensures Published(order, false, r) == Delivered(order, r)
    ensures AlreadyHas(order, r) ==> Delivered(order, r) == order
  {
  }

  lemma {:induction false} DeliveredIs(order: seq<Receiver>, r: Receiver)
    ensures Delivered(order, r) == if AlreadyHas(order, r) then order else order + [r]
  {
  }

  function Delivered(order: seq<Receiver>, r: Receiver): seq<Receiver> {
    if AlreadyHas(order, r) then order else order + [r]
  }

  /** Looking through the one stream is looking through them all. */
  lemma {:induction false} NotInStream(order: seq<Receiver>, r: Receiver)
    ensures AlreadyHas(order, r) <==> exists x :: x in OfStream(order, r.streamID) && x.trackID == r.trackID
  {
    if AlreadyHas(order, r) {
      var i :| 0 <= i < |order| && SameKey(order[i], r);
      assert order[i] in OfStream(order, r.streamID);
    }
    if x :| x in OfStream(order, r.streamID) && x.trackID == r.trackID {
      var j :| 0 <= j < |order| && order[j] == x;
      assert SameKey(order[j], r);
    }
  }

  /** Tracks of other names do not make this one a duplicate. */
  lemma {:induction false} HasAfter(order: seq<Receiver>, added: seq<Receiver>, r: Receiver)
    requires forall x :: x in added ==> x.trackID != r.trackID
    ensures AlreadyHas(order + added, r) <==> AlreadyHas(order, r)
  {
    if AlreadyHas(order, r) {
      var i :| 0 <= i < |order| && SameKey(order[i], r);
      assert SameKey((order + added)[i], r);
    }
    if AlreadyHas(order + added, r) {
      var i :| 0 <= i < |order + added| && SameKey((order + added)[i], r);
      if i >= |order| {
        assert (order + added)[i] in added;
      }
    }
  }
}
