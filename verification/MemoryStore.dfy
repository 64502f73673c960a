/** The store kept in the server's memory (memory.go). */
module MemoryStore {
  import opened Machine
  import opened SignalStore

  datatype Room = Room(id: string, publisherId: string, subscribers: set<string>,
                       maxSubscribers: int, cachedOffer: Option<CachedIce>)

  datatype State = State(peers: map<string, PeerMeta>, rooms: map<string, Room>)

  const EMPTY: State := State(map[], map[])

  type MemResult = Result<PeerMeta, Room>

  // ---------- Specification ----------

  function Register(s: State, peerId: string, nodeId: string, now: nat): State {
    if peerId in s.peers then s.(peers := s.peers[peerId := s.peers[peerId].(nodeId := nodeId, onlineAt := now)])
    else s.(peers := s.peers[peerId := PeerMeta(peerId, "", false, nodeId, now)])
  }

  /** Peer p, leaving, takes its room along if it is the publisher, else its own entry. */
  function Depart(rooms: map<string, Room>, p: PeerMeta, peerId: string): map<string, Room> {
    if p.roomId == "" || p.roomId !in rooms then rooms
    else if p.isPublisher then rooms - {p.roomId}
    else
      var room := rooms[p.roomId];
      rooms[p.roomId := room.(subscribers := room.subscribers - {peerId})]
  }

  function Unregister(s: State, peerId: string): State {
    if peerId !in s.peers then s
    else State(s.peers - {peerId}, Depart(s.rooms, s.peers[peerId], peerId))
  }

  function Create(s: State, roomId: string, publisherId: string, maxSubs: int): (State, MemResult) {
    if roomId in s.rooms then (s, Failed(RoomExists(roomId)))
    else
      var peers := if publisherId in s.peers
                   then s.peers[publisherId := s.peers[publisherId].(roomId := roomId, isPublisher := true)]
                   else s.peers;
      (State(peers, s.rooms[roomId := Room(roomId, publisherId, {}, maxSubs, None)]), Done)
  }

  function Join(s: State, roomId: string, subscriberId: string): (State, MemResult) {
    if roomId !in s.rooms then (s, Failed(RoomNotFound(roomId)))
    else
      var room := s.rooms[roomId];
      if |room.subscribers| >= room.maxSubscribers then
        (s, Failed(RoomFull(roomId, |room.subscribers|, room.maxSubscribers)))
      else
        var room1 := room.(subscribers := room.subscribers + {subscriberId});
        var peers := if subscriberId in s.peers
                     then s.peers[subscriberId := s.peers[subscriberId].(roomId := roomId, isPublisher := false)]
                     else s.peers;
        (State(peers, s.rooms[roomId := room1]), RoomIs(Some(room1)))
  }

  /** A peer whose room has vanished keeps its publisher flag. */
  function Leave(s: State, peerId: string): State {
    if peerId !in s.peers || s.peers[peerId].roomId == "" then s
    else
      var p := s.peers[peerId];
      if p.roomId !in s.rooms then s.(peers := s.peers[peerId := p.(roomId := "")])
      else State(s.peers[peerId := p.(roomId := "", isPublisher := false)], Depart(s.rooms, p, peerId))
  }

  function Offer(s: State, roomId: string, offer: Option<CachedIce>): (State, MemResult) {
    if roomId !in s.rooms then (s, Failed(RoomNotFound(roomId)))
    else (s.(rooms := s.rooms[roomId := s.rooms[roomId].(cachedOffer := offer)]), Done)
  }

  function Lookup<T>(m: map<string, T>, id: string): Option<T> {
    if id in m then Some(m[id]) else None
  }

  function Step(s: State, op: Op): (State, MemResult) {
    match op
    case RegisterPeer(id, node, now) => (Register(s, id, node, now), Done)
    case UnregisterPeer(id) => (Unregister(s, id), PeerIs(Lookup(s.peers, id)))
    case GetPeer(id) => (s, PeerIs(Lookup(s.peers, id)))
    case EnsurePeer(id, node, now) =>
      var s1 := if id in s.peers then s else Register(s, id, node, now);
      (s1, PeerIs(Some(s1.peers[id])))
    case CreateRoom(room, pub, maxSubs) => Create(s, room, pub, maxSubs)
    case JoinRoom(room, sub) => Join(s, room, sub)
    case LeaveRoom(id) => (Leave(s, id), Done)
    case GetRoom(room) => (s, RoomIs(Lookup(s.rooms, room)))
    case CacheOffer(room, offer) => Offer(s, room, offer)
    case GetCachedOffer(room) => (s, OfferIs(if room in s.rooms then s.rooms[room].cachedOffer else None))
    case ListPeers => (s, Peers(s.peers.Values))
    case ListRooms => (s, Rooms(s.rooms.Values))
  }

  function Run(ops: seq<Op>): State {
    if ops == [] then EMPTY else Step(Run(ops[..|ops| - 1]), ops[|ops| - 1]).0
  }

  // ---------- Publisher ownership ----------

  /** A peer that claims to publish a room is the publisher of that very room. */
  ghost predicate Owned(s: State) {
    forall id <- s.peers ::
      var p := s.peers[id];
      p.isPublisher && p.roomId != "" ==> p.roomId in s.rooms && s.rooms[p.roomId].publisherId == id
  }

  ghost predicate Keyed(s: State) {
    && (forall id <- s.peers :: s.peers[id].id == id)
    && (forall id <- s.rooms :: s.rooms[id].id == id)
  }

  lemma {:induction false} StepKeepsOwnership(s: State, op: Op)
    requires Owned(s) && Keyed(s)
    ensures Owned(Step(s, op).0) && Keyed(Step(s, op).0)
  {
    match op
    case RegisterPeer(_, _, _) =>
    case UnregisterPeer(_) =>
    case GetPeer(_) =>
    case EnsurePeer(_, _, _) =>
    case CreateRoom(_, _, _) =>
    case JoinRoom(_, _) =>
    case LeaveRoom(_) =>
    case GetRoom(_) =>
    case CacheOffer(_, _) =>
    case GetCachedOffer(_) =>
    case ListPeers =>
    case ListRooms =>
  }

  /** In every reachable state. */
  lemma {:induction false} PublishersOwnTheirRooms(ops: seq<Op>)
    ensures Owned(Run(ops)) && Keyed(Run(ops))
  {
    if ops == [] {
    } else {
      PublishersOwnTheirRooms(ops[..|ops| - 1]);
      StepKeepsOwnership(Run(ops[..|ops| - 1]), ops[|ops| - 1]);
    }
  }

  lemma {:induction false} OnePublisherPerRoom(ops: seq<Op>, a: string, b: string)
    requires var s := Run(ops);
             && a in s.peers && s.peers[a].isPublisher && s.peers[a].roomId != ""
             && b in s.peers && s.peers[b].isPublisher && s.peers[b].roomId == s.peers[a].roomId
    ensures a == b
  {
    PublishersOwnTheirRooms(ops);
  }

  /** A room keeps its publisher for life, and only that publisher's leaving ends it. */
  lemma {:induction false} OnlyThePublisherEndsARoom(s: State, op: Op, roomId: string)
    requires Owned(s) && roomId in s.rooms
    ensures var s1 := Step(s, op).0;
            && (roomId in s1.rooms ==> s1.rooms[roomId].publisherId == s.rooms[roomId].publisherId
                                       && s1.rooms[roomId].maxSubscribers == s.rooms[roomId].maxSubscribers)
            && (roomId !in s1.rooms ==> op == LeaveRoom(s.rooms[roomId].publisherId)
                                        || op == UnregisterPeer(s.rooms[roomId].publisherId))
  {
    match op
    case RegisterPeer(_, _, _) =>
    case UnregisterPeer(_) =>
    case GetPeer(_) =>
    case EnsurePeer(_, _, _) =>
    case CreateRoom(_, _, _) =>
    case JoinRoom(_, _) =>
    case LeaveRoom(_) =>
    case GetRoom(_) =>
    case CacheOffer(_, _) =>
    case GetCachedOffer(_) =>
    case ListPeers =>
    case ListRooms =>
  }

  /** Position i of the run made the room that is there now, and it has been there since. */
  ghost predicate MadeAt(ops: seq<Op>, i: nat, roomId: string) {
    && i < |ops| && roomId in Run(ops).rooms
    && ops[i] == CreateRoom(roomId, Run(ops).rooms[roomId].publisherId, Run(ops).rooms[roomId].maxSubscribers)
    && roomId !in Run(ops[..i]).rooms
    && forall j :: i < j <= |ops| ==> roomId in Run(ops[..j]).rooms
  }

  /** Every room was created by the peer it names as its publisher, in this incarnation. */
  lemma {:induction false} RoomsComeFromTheirPublisher(ops: seq<Op>, roomId: string)
    requires roomId in Run(ops).rooms
    ensures exists i: nat :: MadeAt(ops, i, roomId)
  {
    var n := |ops| - 1;
    var before := ops[..n];
    assert ops[..|ops|] == ops;
    if roomId in Run(before).rooms {
      RoomsComeFromTheirPublisher(before, roomId);
      var i: nat :| MadeAt(before, i, roomId);
      PublishersOwnTheirRooms(before);
      OnlyThePublisherEndsARoom(Run(before), ops[n], roomId);
      forall j | i < j <= |ops| ensures roomId in Run(ops[..j]).rooms {
        if j <= n {
          assert before[..j] == ops[..j];
        }
      }
      assert before[..i] == ops[..i];
      assert MadeAt(ops, i, roomId);
    } else {
      assert MadeAt(ops, n, roomId);
    }
  }

  // ---------- Capacity ----------

  ghost predicate AllWithin(rooms: map<string, Room>) {
    forall id <- rooms :: |rooms[id].subscribers| <= rooms[id].maxSubscribers
  }

  ghost predicate WithinLimits(s: State) {
    AllWithin(s.rooms)
  }

  lemma {:induction false} CapacityKept(ops: seq<Op>)
    requires SaneLimits(ops)
    ensures WithinLimits(Run(ops))
  {
    if ops == [] {
    } else {
      CapacityKept(ops[..|ops| - 1]);
      StepKeepsCapacity(Run(ops[..|ops| - 1]), ops[|ops| - 1]);
    }
  }

  lemma {:induction false} RemovalShrinks(s: set<string>, x: string)
    ensures |s - {x}| <= |s|
    ensures |s + {x}| <= |s| + 1
  {
    assert s == (s - {x}) + (s * {x});
    assert s + {x} == (s - {x}) + {x};
  }

  lemma {:induction false} DepartKeepsCapacity(rooms: map<string, Room>, p: PeerMeta, peerId: string)
    requires AllWithin(rooms)
    ensures AllWithin(Depart(rooms, p, peerId))
  {
    if p.roomId in rooms {
      RemovalShrinks(rooms[p.roomId].subscribers, peerId);
    }
  }

  lemma {:induction false} StepKeepsCapacity(s: State, op: Op)
    requires WithinLimits(s) && (op.CreateRoom? ==> op.maxSubs >= 0)
    ensures WithinLimits(Step(s, op).0)
  {
    match op
    case RegisterPeer(_, _, _) =>
    case UnregisterPeer(id) =>
      if id in s.peers {
        DepartKeepsCapacity(s.rooms, s.peers[id], id);
      }
    case GetPeer(_) =>
    case EnsurePeer(_, _, _) =>
    case CreateRoom(_, _, _) =>
    case JoinRoom(room, sub) =>
      if room in s.rooms {
        RemovalShrinks(s.rooms[room].subscribers, sub);
      }
    case LeaveRoom(id) =>
      if id in s.peers {
        DepartKeepsCapacity(s.rooms, s.peers[id], id);
      }
    case GetRoom(_) =>
    case CacheOffer(_, _) =>
    case GetCachedOffer(_) =>
    case ListPeers =>
    case ListRooms =>
  }

  // ---------- The code ----------

  /** The order in which a Go map lists its keys is open; any order of the set will do. */
  ghost predicate Lists(meta: RoomMeta, room: Room) {
    && meta.id == room.id && meta.publisherId == room.publisherId
    && meta.maxSubscribers == room.maxSubscribers && meta.cachedOffer == room.cachedOffer
    && NoDuplicates(meta.subscriberIds) && Elements(meta.subscriberIds) == room.subscribers
  }

  ghost predicate Appears(metas: seq<RoomMeta>, id: string) {
    exists i :: 0 <= i < |metas| && metas[i].id == id
  }

  class Store {
    var peers: map<string, PeerMeta>
    var rooms: map<string, Room>

    ghost function Abs(): State
      reads this
    {
      State(peers, rooms)
    }

    constructor ()
      ensures Abs() == EMPTY
    {
      peers, rooms := map[], map[];
    }

    method RegisterPeer(peerId: string, nodeId: string, now: nat)
      modifies this
      ensures Abs() == Register(old(Abs()), peerId, nodeId, now)
    {
      if peerId in peers {
        peers := peers[peerId := peers[peerId].(nodeId := nodeId, onlineAt := now)];
        return;
      }
      peers := peers[peerId := PeerMeta(peerId, "", false, nodeId, now)];
    }

    method UnregisterPeer(peerId: string) returns (meta: Option<PeerMeta>)
      modifies this
      ensures (Abs(), PeerIs(meta)) == Step(old(Abs()), SignalStore.UnregisterPeer(peerId))
    {
      if peerId !in peers {
        return None;
      }
      var p := peers[peerId];
      if p.roomId != "" {
        if p.roomId in rooms {
          if p.isPublisher {
            rooms := rooms - {p.roomId};
          } else {
            var room := rooms[p.roomId];
            rooms := rooms[p.roomId := room.(subscribers := room.subscribers - {peerId})];
          }
        }
      }
      peers := peers - {peerId};
      return Some(p);
    }

    method EnsurePeer(peerId: string, nodeId: string, now: nat) returns (meta: PeerMeta)
      modifies this
      ensures (Abs(), PeerIs(Some(meta))) == Step(old(Abs()), SignalStore.EnsurePeer(peerId, nodeId, now))
    {
      if peerId in peers {
        return peers[peerId];
      }
      meta := PeerMeta(peerId, "", false, nodeId, now);
      peers := peers[peerId := meta];
    }

    method CreateRoom(roomId: string, publisherId: string, maxSubs: int) returns (error: Option<Error>)
      modifies this
      ensures (Abs(), if error.None? then Done else Failed(error.value)) ==
              Create(old(Abs()), roomId, publisherId, maxSubs)
    {
      if roomId in rooms {
        return Some(RoomExists(roomId));
      }
      rooms := rooms[roomId := Room(roomId, publisherId, {}, maxSubs, None)];
      if publisherId in peers {
        peers := peers[publisherId := peers[publisherId].(roomId := roomId, isPublisher := true)];
      }
      return None;
    }

    /** roomMetaLocked lists the subscriber set in some order. */
    method RoomMetaLocked(room: Room) returns (meta: RoomMeta)
      ensures Lists(meta, room)
    {
      var subs: seq<string>, rest := [], room.subscribers;
      while rest != {}
        invariant rest <= room.subscribers && NoDuplicates(subs)
        invariant Elements(subs) == room.subscribers - rest
        decreases rest
      {
        var id :| id in rest;
        assert id !in Elements(subs);
        ElementsSnoc(subs, id);
        subs, rest := subs + [id], rest - {id};
      }
      return RoomMeta(room.id, room.publisherId, subs, room.maxSubscribers, room.cachedOffer);
    }

    method JoinRoom(roomId: string, subscriberId: string) returns (error: Option<Error>, meta: Option<RoomMeta>)
      modifies this
      ensures Abs() == Join(old(Abs()), roomId, subscriberId).0
      ensures match Join(old(Abs()), roomId, subscriberId).1
              case Failed(e) => error == Some(e) && meta == None
              case RoomIs(Some(room)) => error == None && meta.Some? && Lists(meta.value, room)
              case _ => false
    {
      if roomId !in rooms {
        return Some(RoomNotFound(roomId)), None;
      }
      var room := rooms[roomId];
      if |room.subscribers| >= room.maxSubscribers {
        return Some(RoomFull(roomId, |room.subscribers|, room.maxSubscribers)), None;
      }
      room := room.(subscribers := room.subscribers + {subscriberId});
      rooms := rooms[roomId := room];
      if subscriberId in peers {
        peers := peers[subscriberId := peers[subscriberId].(roomId := roomId, isPublisher := false)];
      }
      var listed := RoomMetaLocked(room);
      return None, Some(listed);
    }

    method LeaveRoom(peerId: string)
      modifies this
      ensures Abs() == Leave(old(Abs()), peerId)
    {
      if peerId !in peers || peers[peerId].roomId == "" {
        return;
      }
      var p := peers[peerId];
      if p.roomId !in rooms {
        peers := peers[peerId := p.(roomId := "")];
        return;
      }
      if p.isPublisher {
        rooms := rooms - {p.roomId};
      } else {
        var room := rooms[p.roomId];
        rooms := rooms[p.roomId := room.(subscribers := room.subscribers - {peerId})];
      }
      peers := peers[peerId := p.(roomId := "", isPublisher := false)];
    }

    method CacheOffer(roomId: string, offer: Option<CachedIce>) returns (error: Option<Error>)
      modifies this
      ensures (Abs(), if error.None? then Done else Failed(error.value)) == Offer(old(Abs()), roomId, offer)
    {
      if roomId !in rooms {
        return Some(RoomNotFound(roomId));
      }
      rooms := rooms[roomId := rooms[roomId].(cachedOffer := offer)];
      return None;
    }

    method GetPeer(peerId: string) returns (meta: Option<PeerMeta>)
      ensures PeerIs(meta) == Step(Abs(), SignalStore.GetPeer(peerId)).1
    {
      if peerId in peers {
        return Some(peers[peerId]);
      }
      return None;
    }

    method GetRoom(roomId: string) returns (meta: Option<RoomMeta>)
      ensures meta.None? <==> roomId !in rooms
      ensures meta.Some? ==> Lists(meta.value, rooms[roomId])
    {
      if roomId !in rooms {
        return None;
      }
      var listed := RoomMetaLocked(rooms[roomId]);
      return Some(listed);
    }

    method GetCachedOffer(roomId: string) returns (offer: Option<CachedIce>)
      ensures OfferIs(offer) == Step(Abs(), SignalStore.GetCachedOffer(roomId)).1
    {
      if roomId !in rooms {
        return None;
      }
      return rooms[roomId].cachedOffer;
    }

    /** Every peer is listed once. */
    method ListPeers() returns (result: seq<PeerMeta>)
      ensures Peers(Elements(result)) == Step(Abs(), SignalStore.ListPeers).1
      ensures Keyed(Abs()) ==> NoDuplicates(result)
    {
      result := [];
      var rest := peers.Keys;
      while rest != {}
        invariant rest <= peers.Keys
        invariant Elements(result) == set id | id in peers.Keys - rest :: peers[id]
        invariant Keyed(Abs()) ==> forall i :: 0 <= i < |result| ==> result[i].id in peers.Keys - rest
        invariant Keyed(Abs()) ==> NoDuplicates(result)
        decreases rest
      {
        var id :| id in rest;
        ElementsSnoc(result, peers[id]);
        result, rest := result + [peers[id]], rest - {id};
      }
    }

    /** Every room is listed once, and nothing else. */
    method ListRooms() returns (result: seq<RoomMeta>)
      ensures Keyed(Abs()) ==>
                && (forall i :: 0 <= i < |result| ==> result[i].id in rooms && Lists(result[i], rooms[result[i].id]))
                && (forall id <- rooms.Keys :: Appears(result, id))
                && NoDuplicates(result)
    {
      result := [];
      var rest := rooms.Keys;
      while rest != {}
        invariant rest <= rooms.Keys
        invariant Keyed(Abs()) ==>
                    forall i :: 0 <= i < |result| ==>
                      result[i].id in rooms.Keys - rest && Lists(result[i], rooms[result[i].id])
        invariant Keyed(Abs()) ==> forall id <- rooms.Keys - rest :: Appears(result, id)
        invariant Keyed(Abs()) ==> NoDuplicates(result)
        decreases rest
      {
        var id :| id in rest;
        var listed := RoomMetaLocked(rooms[id]);
        if Keyed(Abs()) {
          assert (result + [listed])[|result|].id == id;
          forall d | d in rooms.Keys - (rest - {id}) ensures Appears(result + [listed], d) {
            AppearsStill(result, listed, d);
          }
        }
        result, rest := result + [listed], rest - {id};
      }
    }
  }

  lemma {:induction false} AppearsStill(metas: seq<RoomMeta>, last: RoomMeta, id: string)
    requires Appears(metas, id) || last.id == id
    ensures Appears(metas + [last], id)
  {
    if i :| 0 <= i < |metas| && metas[i].id == id {
      assert (metas + [last])[i].id == id;
    } else {
      assert (metas + [last])[|metas|].id == id;
    }
  }
}
