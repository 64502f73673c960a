/** The Redis store behaves like the memory store: a step-by-step simulation that rests on
    publisher ownership, and the one kind of call on which the two differ. */
module StoreSimulation {
  import opened Machine
  import opened SignalStore
  import M = MemoryStore
  import R = RedisStore

  // ---------- The two states and results that stand for the same thing ----------

  /** The same peer; Redis keeps the whole seconds of the time. */
  predicate SamePeer(p: PeerMeta, d: R.PeerData) {
    && d.id == p.id && d.roomId == p.roomId && d.isPublisher == p.isPublisher
    && d.nodeId == p.nodeId && d.onlineAt == p.onlineAt / R.NANOS
  }

  predicate SamePeerMeta(p: PeerMeta, d: PeerMeta) {
    d == p.(onlineAt := p.onlineAt / R.NANOS * R.NANOS)
  }

  /** The same room; the subscriber list is the subscriber set, each name once. */
  ghost predicate SameRoom(r: M.Room, d: RoomMeta) {
    && d.id == r.id && d.publisherId == r.publisherId
    && d.maxSubscribers == r.maxSubscribers && d.cachedOffer == r.cachedOffer
    && NoDuplicates(d.subscriberIds) && Elements(d.subscriberIds) == r.subscribers
  }

  ghost predicate SamePeers(m: map<string, PeerMeta>, d: map<string, R.PeerData>) {
    m.Keys == d.Keys && forall id <- m :: SamePeer(m[id], d[id])
  }

  ghost predicate SameRooms(m: map<string, M.Room>, d: map<string, R.RoomData>) {
    m.Keys == d.Keys && forall id <- m :: SameRoom(m[id], R.ToRoomMeta(d[id]))
  }

  ghost predicate Same(m: M.State, r: R.State) {
    SamePeers(m.peers, r.peers) && SameRooms(m.rooms, r.rooms) && R.Indexed(r)
  }

  ghost predicate SameResult(a: M.MemResult, b: R.RedisResult) {
    match (a, b)
    case (Done, Done) => true
    case (Failed(e), Failed(f)) => e == f
    case (PeerIs(None), PeerIs(None)) => true
    case (PeerIs(Some(p)), PeerIs(Some(d))) => SamePeerMeta(p, d)
    case (RoomIs(None), RoomIs(None)) => true
    case (RoomIs(Some(r)), RoomIs(Some(d))) => SameRoom(r, d)
    case (OfferIs(o), OfferIs(q)) => o == q
    case (Peers(ps), Peers(ds)) =>
      && (forall p <- ps :: exists d <- ds :: SamePeerMeta(p, d))
      && (forall d <- ds :: exists p <- ps :: SamePeerMeta(p, d))
    case (Rooms(rs), Rooms(ds)) =>
      (forall r <- rs :: exists d <- ds :: SameRoom(r, d)) && (forall d <- ds :: exists r <- rs :: SameRoom(r, d))
    case _ => false
  }

  // ---------- Subscriber lists ----------

  lemma {:induction false} WithoutRemoves(ids: seq<string>, id: string)
    requires NoDuplicates(ids)
    ensures NoDuplicates(R.Without(ids, id)) && Elements(R.Without(ids, id)) == Elements(ids) - {id}
  {
    if ids == [] {
    } else {
      var n := |ids| - 1;
      WithoutRemoves(ids[..n], id);
      assert Elements(ids) == Elements(ids[..n]) + {ids[n]};
      assert ids[n] !in Elements(ids[..n]);
      if ids[n] != id {
        AppendNew(R.Without(ids[..n], id), ids[n]);
      } else {
        assert R.Without(ids, id) == R.Without(ids[..n], id);
      }
    }
  }

  lemma {:induction false} AppendNew(ids: seq<string>, id: string)
    requires NoDuplicates(ids) && id !in Elements(ids)
    ensures NoDuplicates(ids + [id]) && Elements(ids + [id]) == Elements(ids) + {id}
  {}

  // ---------- One step ----------

  /** A peer joins a room that lists it already and still has a place. */
  predicate Rejoins(m: M.State, op: Op) {
    && op.JoinRoom? && op.roomId in m.rooms
    && op.subscriberId in m.rooms[op.roomId].subscribers
    && |m.rooms[op.roomId].subscribers| < m.rooms[op.roomId].maxSubscribers
  }

  ghost predicate Agree(m: M.State, r: R.State, op: Op) {
    Same(M.Step(m, op).0, R.Step(r, op).0) && SameResult(M.Step(m, op).1, R.Step(r, op).1)
  }

  lemma {:induction false} DepartAgrees(m: M.State, r: R.State, id: string)
    requires Same(m, r) && id in m.peers
    ensures SameRooms(M.Depart(m.rooms, m.peers[id], id), R.Depart(r, r.peers[id], id).rooms)
    ensures R.Depart(r, r.peers[id], id).peers == r.peers && R.Indexed(R.Depart(r, r.peers[id], id))
  {
    var p := m.peers[id];
    if p.roomId in m.rooms {
      WithoutRemoves(r.rooms[p.roomId].subscriberIds, id);
    }
  }

  lemma {:induction false} LeaveAgrees(m: M.State, r: R.State, id: string)
    requires Same(m, r) && M.Owned(m)
    ensures Agree(m, r, LeaveRoom(id))
  {
    if id in m.peers {
      DepartAgrees(m, r, id);
    }
  }

  lemma {:induction false} UnregisterAgrees(m: M.State, r: R.State, id: string)
    requires Same(m, r)
    ensures Agree(m, r, UnregisterPeer(id))
  {
    if id in m.peers {
      DepartAgrees(m, r, id);
    }
  }

  /** Writing records that stand for the same thing keeps the states the same. */
  lemma {:induction false} PutPeerAgrees(m: M.State, r: R.State, id: string, p: PeerMeta, d: R.PeerData)
    requires Same(m, r) && SamePeer(p, d)
    ensures Same(m.(peers := m.peers[id := p]), R.SetPeer(r, id, d))
  {}

  lemma {:induction false} PutRoomAgrees(m: M.State, r: R.State, id: string, x: M.Room, d: R.RoomData)
    requires Same(m, r) && SameRoom(x, R.ToRoomMeta(d))
    ensures Same(m.(rooms := m.rooms[id := x]), R.SetRoom(r, id, d))
  {}

  lemma {:induction false} PlacePeerAgrees(m: M.State, r: R.State, id: string, room: string, pub: bool)
    requires Same(m, r)
    ensures id in m.peers <==> id in r.peers
    ensures id in m.peers ==>
              Same(m.(peers := m.peers[id := m.peers[id].(roomId := room, isPublisher := pub)]),
                   R.SetPeer(r, id, r.peers[id].(roomId := room, isPublisher := pub)))
  {
    if id in m.peers {
      assert SamePeer(m.peers[id], r.peers[id]);
      PutPeerAgrees(m, r, id, m.peers[id].(roomId := room, isPublisher := pub),
                    r.peers[id].(roomId := room, isPublisher := pub));
    }
  }

  lemma {:induction false} RejoinDisagrees(m: M.State, r: R.State, room: string, sub: string)
    requires Same(m, r) && Rejoins(m, JoinRoom(room, sub))
    ensures !Agree(m, r, JoinRoom(room, sub))
  {
    var ids := r.rooms[room].subscriberIds;
    assert SameRoom(m.rooms[room], R.ToRoomMeta(r.rooms[room]));
    CountOfElements(ids);
    var i :| 0 <= i < |ids| && ids[i] == sub;
    assert (ids + [sub])[i] == (ids + [sub])[|ids|];
    assert !NoDuplicates(R.Join(r, room, sub).1.room.value.subscriberIds);
  }

  lemma {:induction false} JoinAgrees(m: M.State, r: R.State, room: string, sub: string)
    requires Same(m, r) && !Rejoins(m, JoinRoom(room, sub))
    ensures Agree(m, r, JoinRoom(room, sub))
  {
    if room in m.rooms {
      var x, d := m.rooms[room], r.rooms[room];
      assert SameRoom(x, R.ToRoomMeta(d));
      CountOfElements(d.subscriberIds);
      if |x.subscribers| < x.maxSubscribers {
        AppendNew(d.subscriberIds, sub);
        var x1, d1 := x.(subscribers := x.subscribers + {sub}), d.(subscriberIds := d.subscriberIds + [sub]);
        PutRoomAgrees(m, r, room, x1, d1);
        PlacePeerAgrees(m.(rooms := m.rooms[room := x1]), R.SetRoom(r, room, d1), sub, room, false);
      }
    }
  }

  lemma {:induction false} CreateAgrees(m: M.State, r: R.State, room: string, pub: string, maxSubs: int)
    requires Same(m, r)
    ensures Agree(m, r, CreateRoom(room, pub, maxSubs))
  {
    if room !in m.rooms {
      var x, d := M.Room(room, pub, {}, maxSubs, None), R.RoomData(room, pub, [], maxSubs, None);
      PutRoomAgrees(m, r, room, x, d);
      PlacePeerAgrees(m.(rooms := m.rooms[room := x]), R.SetRoom(r, room, d), pub, room, true);
    }
  }

  lemma {:induction false} OfferAgrees(m: M.State, r: R.State, room: string, offer: Option<CachedIce>)
    requires Same(m, r)
    ensures Agree(m, r, CacheOffer(room, offer))
  {
    if room in m.rooms {
      assert SameRoom(m.rooms[room], R.ToRoomMeta(r.rooms[room]));
      PutRoomAgrees(m, r, room, m.rooms[room].(cachedOffer := offer), r.rooms[room].(cachedOffer := offer));
    }
  }

  lemma {:induction false} RegisterAgrees(m: M.State, r: R.State, id: string, node: string, now: nat)
    requires Same(m, r) && M.Keyed(m)
    ensures Same(M.Register(m, id, node, now), R.Register(r, id, node, now))
  {
    assert id in m.peers ==> SamePeer(m.peers[id], r.peers[id]);
    PutPeerAgrees(m, r, id, M.Register(m, id, node, now).peers[id], R.Register(r, id, node, now).peers[id]);
  }

  lemma {:induction false} ReadsAgree(m: M.State, r: R.State, id: string)
    requires Same(m, r)
    ensures Agree(m, r, GetPeer(id)) && Agree(m, r, GetRoom(id)) && Agree(m, r, GetCachedOffer(id))
  {
    assert id in m.peers ==> SamePeer(m.peers[id], r.peers[id]);
    assert id in m.rooms ==> SameRoom(m.rooms[id], R.ToRoomMeta(r.rooms[id]));
  }

  lemma {:induction false} ListAgrees(m: M.State, r: R.State)
    requires Same(m, r)
    ensures Agree(m, r, ListPeers) && Agree(m, r, ListRooms)
  {
    var ps, ds := m.peers.Values, R.Step(r, ListPeers).1.peers;
    forall p <- ps ensures exists d <- ds :: SamePeerMeta(p, d) {
      var id :| id in m.peers && m.peers[id] == p;
      assert SamePeer(m.peers[id], r.peers[id]) && R.ToPeerMeta(r.peers[id]) in ds;
    }
    forall d <- ds ensures exists p <- ps :: SamePeerMeta(p, d) {
      var id :| id in r.peers && R.ToPeerMeta(r.peers[id]) == d;
      assert SamePeer(m.peers[id], r.peers[id]) && m.peers[id] in ps;
    }
    var rs, qs := m.rooms.Values, R.Step(r, ListRooms).1.rooms;
    forall x <- rs ensures exists d <- qs :: SameRoom(x, d) {
      var id :| id in m.rooms && m.rooms[id] == x;
      assert R.ToRoomMeta(r.rooms[id]) in qs;
    }
    forall d <- qs ensures exists x <- rs :: SameRoom(x, d) {
      var id :| id in r.rooms && R.ToRoomMeta(r.rooms[id]) == d;
      assert m.rooms[id] in rs;
    }
  }

  /** From states that stand for the same thing, the stores agree on a call if and only if
      it is not a rejoin. */
  lemma {:induction false} AgreeUnlessRejoin(m: M.State, r: R.State, op: Op)
    requires Same(m, r) && M.Owned(m) && M.Keyed(m)
    ensures Agree(m, r, op) <==> !Rejoins(m, op)
  {
    match op
    case RegisterPeer(id, node, now) =>
      RegisterAgrees(m, r, id, node, now);
    case UnregisterPeer(id) =>
      UnregisterAgrees(m, r, id);
    case GetPeer(id) =>
      ReadsAgree(m, r, id);
    case EnsurePeer(id, node, now) =>
      RegisterAgrees(m, r, id, node, now);
      ReadsAgree(M.Step(m, op).0, R.Step(r, op).0, id);
    case CreateRoom(room, pub, maxSubs) =>
      CreateAgrees(m, r, room, pub, maxSubs);
    case JoinRoom(room, sub) =>
      if Rejoins(m, op) {
        RejoinDisagrees(m, r, room, sub);
      } else {
        JoinAgrees(m, r, room, sub);
      }
    case LeaveRoom(id) =>
      LeaveAgrees(m, r, id);
    case GetRoom(room) =>
      ReadsAgree(m, r, room);
    case CacheOffer(room, offer) =>
      OfferAgrees(m, r, room, offer);
    case GetCachedOffer(room) =>
      ReadsAgree(m, r, room);
    case ListPeers =>
      ListAgrees(m, r);
    case ListRooms =>
      ListAgrees(m, r);
  }

  // ---------- Runs ----------

  ghost predicate NoRejoin(ops: seq<Op>) {
    ops != [] ==> NoRejoin(ops[..|ops| - 1]) && !Rejoins(M.Run(ops[..|ops| - 1]), ops[|ops| - 1])
  }

  /** After any run without a rejoin the stores hold the same, and have answered the last
      call, like every call before it, the same. */
  lemma {:induction false} RedisSimulatesMemory(ops: seq<Op>)
    requires NoRejoin(ops)
    ensures Same(M.Run(ops), R.Run(ops))
    ensures ops != [] ==>
              var before := ops[..|ops| - 1];
              SameResult(M.Step(M.Run(before), ops[|ops| - 1]).1, R.Step(R.Run(before), ops[|ops| - 1]).1)
  {
    if ops == [] {
    } else {
      var before := ops[..|ops| - 1];
      RedisSimulatesMemory(before);
      M.PublishersOwnTheirRooms(before);
      AgreeUnlessRejoin(M.Run(before), R.Run(before), ops[|ops| - 1]);
    }
  }

  /** At every point of the run the stores held the same and gave the same answer. */
  ghost predicate AgreedThroughout(ops: seq<Op>) {
    ops != [] ==>
      && AgreedThroughout(ops[..|ops| - 1])
      && Agree(M.Run(ops[..|ops| - 1]), R.Run(ops[..|ops| - 1]), ops[|ops| - 1])
  }

  /** The runs on which the two stores cannot be told apart are exactly those without a
      rejoin. */
  lemma {:induction false} AlikeIffNoRejoin(ops: seq<Op>)
    ensures AgreedThroughout(ops) <==> NoRejoin(ops)
  {
    if ops == [] {
    } else {
      var before := ops[..|ops| - 1];
      AlikeIffNoRejoin(before);
      if NoRejoin(before) {
        RedisSimulatesMemory(before);
        M.PublishersOwnTheirRooms(before);
        AgreeUnlessRejoin(M.Run(before), R.Run(before), ops[|ops| - 1]);
      }
    }
  }

  /** Such a run: the subscriber is in the room, and there is a second place. */
  lemma {:induction false} RejoinTellsThemApart()
    ensures !AgreedThroughout([CreateRoom("r", "p", 2), JoinRoom("r", "s"), JoinRoom("r", "s")])
  {
    var create, join := CreateRoom("r", "p", 2), JoinRoom("r", "s");
    var ops := [create, join, join];
    assert ops[..2] == [create, join] && [create, join][..1] == [create] && [create][..0] == [];
    assert M.Run([create]).rooms == map["r" := M.Room("r", "p", {}, 2, None)];
    assert M.Run([create, join]).rooms == map["r" := M.Room("r", "p", {"s"}, 2, None)];
    assert Rejoins(M.Run(ops[..2]), ops[2]);
    AlikeIffNoRejoin(ops);
  }

  /** Without ownership the stores would part: a publisher flag on a vanished room survives
      leaving in memory, not in Redis. */
  lemma {:induction false} OwnershipIsNeeded()
    ensures var p := PeerMeta("a", "gone", true, "", 0);
            var (m, r) := (M.State(map["a" := p], map[]),
                           R.State(map["a" := R.PeerData("a", "gone", true, "", 0)], map[], {"a"}, {}));
            Same(m, r) && !M.Owned(m) && !Agree(m, r, LeaveRoom("a"))
  {
    var p := PeerMeta("a", "gone", true, "", 0);
    var m := M.State(map["a" := p], map[]);
    var r := R.State(map["a" := R.PeerData("a", "gone", true, "", 0)], map[], {"a"}, {});
    assert "a" in m.peers && m.peers["a"].isPublisher && m.peers["a"].roomId !in m.rooms;
    assert M.Leave(m, "a").peers["a"].isPublisher && !R.Leave(r, "a").peers["a"].isPublisher;
    assert !SamePeer(M.Leave(m, "a").peers["a"], R.Leave(r, "a").peers["a"]);
  }
}
