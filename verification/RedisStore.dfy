/** The store kept in Redis (redis.go): every operation reads whole records, changes them and
    writes them back, and two index sets name the keys in use. */
module RedisStore {
  import opened Machine
  import opened SignalStore

  const NANOS: int := 1000000000

  datatype PeerData = PeerData(id: string, roomId: string, isPublisher: bool, nodeId: string, onlineAt: int)

  datatype RoomData = RoomData(id: string, publisherId: string, subscriberIds: seq<string>,
                               maxSubscribers: int, cachedOffer: Option<CachedIce>)

  /** The keys sig:peer:* and sig:room:*, and the sets sig:peers and sig:rooms. */
  datatype State = State(peers: map<string, PeerData>, rooms: map<string, RoomData>,
                         peerIndex: set<string>, roomIndex: set<string>)

  const EMPTY: State := State(map[], map[], {}, {})

  type RedisResult = Result<PeerMeta, RoomMeta>

  // ---------- Specification ----------

  function UnixSeconds(now: nat): nat {
    now / NANOS
  }

  /** dataToPeerMeta and dataToRoomMeta. */
  function ToPeerMeta(d: PeerData): PeerMeta {
    PeerMeta(d.id, d.roomId, d.isPublisher, d.nodeId, d.onlineAt * NANOS)
  }

  function ToRoomMeta(d: RoomData): RoomMeta {
    RoomMeta(d.id, d.publisherId, d.subscriberIds, d.maxSubscribers, d.cachedOffer)
  }

  function SetPeer(s: State, id: string, d: PeerData): State {
    s.(peers := s.peers[id := d], peerIndex := s.peerIndex + {id})
  }

  function SetRoom(s: State, id: string, d: RoomData): State {
    s.(rooms := s.rooms[id := d], roomIndex := s.roomIndex + {id})
  }

  function DropRoom(s: State, id: string): State {
    s.(rooms := s.rooms - {id}, roomIndex := s.roomIndex - {id})
  }

  function Without(ids: seq<string>, id: string): seq<string> {
    if ids == [] then []
    else Without(ids[..|ids| - 1], id) + if ids[|ids| - 1] != id then [ids[|ids| - 1]] else []
  }

  function Register(s: State, peerId: string, nodeId: string, now: nat): State {
    var d := if peerId in s.peers
             then s.peers[peerId].(id := peerId, nodeId := nodeId, onlineAt := UnixSeconds(now))
             else PeerData(peerId, "", false, nodeId, UnixSeconds(now));
    SetPeer(s, peerId, d)
  }

  function Depart(s: State, d: PeerData, peerId: string): State {
    if d.roomId == "" || d.roomId !in s.rooms then s
    else if d.isPublisher then DropRoom(s, d.roomId)
    else
      var room := s.rooms[d.roomId];
      SetRoom(s, d.roomId, room.(subscriberIds := Without(room.subscriberIds, peerId)))
  }

  function Unregister(s: State, peerId: string): State {
    if peerId !in s.peers then s
    else
      var s1 := Depart(s, s.peers[peerId], peerId);
      s1.(peers := s1.peers - {peerId}, peerIndex := s1.peerIndex - {peerId})
  }

  function Create(s: State, roomId: string, publisherId: string, maxSubs: int): (State, RedisResult) {
    if roomId in s.rooms then (s, Failed(RoomExists(roomId)))
    else
      var s1 := SetRoom(s, roomId, RoomData(roomId, publisherId, [], maxSubs, None));
      (if publisherId in s1.peers
       then SetPeer(s1, publisherId, s1.peers[publisherId].(roomId := roomId, isPublisher := true))
       else s1, Done)
  }

  function Join(s: State, roomId: string, subscriberId: string): (State, RedisResult) {
    if roomId !in s.rooms then (s, Failed(RoomNotFound(roomId)))
    else
      var room := s.rooms[roomId];
      if |room.subscriberIds| >= room.maxSubscribers then
        (s, Failed(RoomFull(roomId, |room.subscriberIds|, room.maxSubscribers)))
      else
        var room1 := room.(subscriberIds := room.subscriberIds + [subscriberId]);
        var s1 := SetRoom(s, roomId, room1);
        (if subscriberId in s1.peers
         then SetPeer(s1, subscriberId, s1.peers[subscriberId].(roomId := roomId, isPublisher := false))
         else s1, RoomIs(Some(ToRoomMeta(room1))))
  }

  /** Unlike the memory store, this one clears the publisher flag even when the room has gone. */
  function Leave(s: State, peerId: string): State {
    if peerId !in s.peers || s.peers[peerId].roomId == "" then s
    else
      var d := s.peers[peerId];
      SetPeer(Depart(s, d, peerId), peerId, d.(roomId := "", isPublisher := false))
  }

  function Offer(s: State, roomId: string, offer: Option<CachedIce>): (State, RedisResult) {
    if roomId !in s.rooms then (s, Failed(RoomNotFound(roomId)))
    else (SetRoom(s, roomId, s.rooms[roomId].(cachedOffer := offer)), Done)
  }

  function FindPeer(s: State, id: string): Option<PeerMeta> {
    if id in s.peers then Some(ToPeerMeta(s.peers[id])) else None
  }

  function FindRoom(s: State, id: string): Option<RoomMeta> {
    if id in s.rooms then Some(ToRoomMeta(s.rooms[id])) else None
  }

  function Step(s: State, op: Op): (State, RedisResult) {
    match op
    case RegisterPeer(id, node, now) => (Register(s, id, node, now), Done)
    case UnregisterPeer(id) => (Unregister(s, id), PeerIs(FindPeer(s, id)))
    case GetPeer(id) => (s, PeerIs(FindPeer(s, id)))
    case EnsurePeer(id, node, now) =>
      var s1 := if id in s.peers then s else Register(s, id, node, now);
      (s1, PeerIs(FindPeer(s1, id)))
    case CreateRoom(room, pub, maxSubs) => Create(s, room, pub, maxSubs)
    case JoinRoom(room, sub) => Join(s, room, sub)
    case LeaveRoom(id) => (Leave(s, id), Done)
    case GetRoom(room) => (s, RoomIs(FindRoom(s, room)))
    case CacheOffer(room, offer) => Offer(s, room, offer)
    case GetCachedOffer(room) => (s, OfferIs(if room in s.rooms then s.rooms[room].cachedOffer else None))
    case ListPeers => (s, Peers(set id | id in s.peerIndex && id in s.peers :: ToPeerMeta(s.peers[id])))
    case ListRooms => (s, Rooms(set id | id in s.roomIndex && id in s.rooms :: ToRoomMeta(s.rooms[id])))
  }

  function Run(ops: seq<Op>): State {
    if ops == [] then EMPTY else Step(Run(ops[..|ops| - 1]), ops[|ops| - 1]).0
  }

  // ---------- The index sets ----------

  predicate Indexed(s: State) {
    s.peerIndex == s.peers.Keys && s.roomIndex == s.rooms.Keys
  }

  lemma {:induction false} StepKeepsIndex(s: State, op: Op)
    requires Indexed(s)
    ensures Indexed(Step(s, op).0)
  {
    match op
    case RegisterPeer(_, _, _) =>
    case UnregisterPeer(_) =>
    case GetPeer(_) =>
    case EnsurePeer(_, _, _) =>
    case CreateRoom(_, _, _) =>
    case JoinRoom(_, _) =>
    case LeaveRoom(_) =>
    case GetRoom(_) =>
    case CacheOffer(_, _) =>
    case GetCachedOffer(_) =>
    case ListPeers =>
    case ListRooms =>
  }

  /** In every reachable state the index sets name exactly the stored keys, so listing by
      index finds every record. */
  lemma {:induction false} ListingIsComplete(ops: seq<Op>)
    ensures Indexed(Run(ops))
    ensures Step(Run(ops), ListPeers).1 == Peers(set id | id in Run(ops).peers :: ToPeerMeta(Run(ops).peers[id]))
    ensures Step(Run(ops), ListRooms).1 == Rooms(set id | id in Run(ops).rooms :: ToRoomMeta(Run(ops).rooms[id]))
  {
    if ops == [] {
    } else {
      ListingIsComplete(ops[..|ops| - 1]);
      StepKeepsIndex(Run(ops[..|ops| - 1]), ops[|ops| - 1]);
    }
  }

  /** Every record carries the name it is stored under. */
  predicate Keyed(s: State) {
    && (forall id <- s.peers :: s.peers[id].id == id)
    && (forall id <- s.rooms :: s.rooms[id].id == id)
  }

  lemma {:induction false} StepKeepsKeyed(s: State, op: Op)
    requires Keyed(s)
    ensures Keyed(Step(s, op).0)
  {
    match op
    case RegisterPeer(_, _, _) =>
    case UnregisterPeer(_) =>
    case GetPeer(_) =>
    case EnsurePeer(_, _, _) =>
    case CreateRoom(_, _, _) =>
    case JoinRoom(_, _) =>
    case LeaveRoom(_) =>
    case GetRoom(_) =>
    case CacheOffer(_, _) =>
    case GetCachedOffer(_) =>
    case ListPeers =>
    case ListRooms =>
  }

  lemma {:induction false} RecordsCarryTheirNames(ops: seq<Op>)
    ensures Keyed(Run(ops))
  {
    if ops == [] {
    } else {
      RecordsCarryTheirNames(ops[..|ops| - 1]);
      StepKeepsKeyed(Run(ops[..|ops| - 1]), ops[|ops| - 1]);
    }
  }

  // ---------- Capacity ----------

  ghost predicate WithinLimits(s: State) {
    forall id <- s.rooms :: |s.rooms[id].subscriberIds| <= s.rooms[id].maxSubscribers
  }

  lemma {:induction false} WithoutShrinks(ids: seq<string>, id: string)
    ensures |Without(ids, id)| <= |ids|
  {
    if ids == [] {
    } else {
      WithoutShrinks(ids[..|ids| - 1], id);
    }
  }

  lemma {:induction false} DepartKeepsCapacity(s: State, d: PeerData, peerId: string)
    requires WithinLimits(s)
    ensures WithinLimits(Depart(s, d, peerId))
  {
    if d.roomId in s.rooms {
      WithoutShrinks(s.rooms[d.roomId].subscriberIds, peerId);
    }
  }

  lemma {:induction false} StepKeepsCapacity(s: State, op: Op)
    requires WithinLimits(s) && (op.CreateRoom? ==> op.maxSubs >= 0)
    ensures WithinLimits(Step(s, op).0)
  {
    match op
    case RegisterPeer(_, _, _) =>
    case UnregisterPeer(id) =>
      if id in s.peers {
        DepartKeepsCapacity(s, s.peers[id], id);
      }
    case GetPeer(_) =>
    case EnsurePeer(_, _, _) =>
    case CreateRoom(_, _, _) =>
    case JoinRoom(_, _) =>
    case LeaveRoom(id) =>
      if id in s.peers {
        DepartKeepsCapacity(s, s.peers[id], id);
      }
    case GetRoom(_) =>
    case CacheOffer(_, _) =>
    case GetCachedOffer(_) =>
    case ListPeers =>
    case ListRooms =>
  }

  lemma {:induction false} CapacityKept(ops: seq<Op>)
    requires SaneLimits(ops)
    ensures WithinLimits(Run(ops))
  {
    if ops == [] {
    } else {
      CapacityKept(ops[..|ops| - 1]);
      StepKeepsCapacity(Run(ops[..|ops| - 1]), ops[|ops| - 1]);
    }
  }

  // ---------- The code ----------

  class Store {
    var peerKeys: map<string, PeerData>
    var roomKeys: map<string, RoomData>
    var peersSet: set<string>
    var roomsSet: set<string>

    ghost function Abs(): State
      reads this
    {
      State(peerKeys, roomKeys, peersSet, roomsSet)
    }

    constructor ()
      ensures Abs() == EMPTY
    {
      peerKeys, roomKeys, peersSet, roomsSet := map[], map[], {}, {};
    }

    method GetPeerData(id: string) returns (d: Option<PeerData>)
      ensures d == if id in peerKeys then Some(peerKeys[id]) else None
    {
      d := if id in peerKeys then Some(peerKeys[id]) else None;
    }

    method GetRoomData(id: string) returns (d: Option<RoomData>)
      ensures d == if id in roomKeys then Some(roomKeys[id]) else None
    {
      d := if id in roomKeys then Some(roomKeys[id]) else None;
    }

    method SetPeerData(id: string, d: PeerData)
      modifies `peerKeys, `peersSet
      ensures Abs() == SetPeer(old(Abs()), id, d)
    {
      peerKeys := peerKeys[id := d];
      peersSet := peersSet + {id};
    }

    method SetRoomData(id: string, d: RoomData)
      modifies `roomKeys, `roomsSet
      ensures Abs() == SetRoom(old(Abs()), id, d)
    {
      roomKeys := roomKeys[id := d];
      roomsSet := roomsSet + {id};
    }

    method DeleteRoom(id: string)
      modifies `roomKeys, `roomsSet
      ensures Abs() == DropRoom(old(Abs()), id)
    {
      roomKeys := roomKeys - {id};
      roomsSet := roomsSet - {id};
    }

    /** The loop that copies all subscribers but one. */
    method RemoveSubscriber(ids: seq<string>, peerId: string) returns (newSubs: seq<string>)
      ensures newSubs == Without(ids, peerId)
    {
      newSubs := [];
      for i := 0 to |ids|
        invariant newSubs == Without(ids[..i], peerId)
      {
        assert ids[..i + 1][..i] == ids[..i];
        if ids[i] != peerId {
          newSubs := newSubs + [ids[i]];
        }
      }
      assert ids[..|ids|] == ids;
    }

    method DepartRoom(d: PeerData, peerId: string)
      modifies `roomKeys, `roomsSet
      ensures Abs() == Depart(old(Abs()), d, peerId)
    {
      if d.roomId != "" {
        var roomData := GetRoomData(d.roomId);
        if roomData.Some? {
          if d.isPublisher {
            DeleteRoom(d.roomId);
          } else {
            var newSubs := RemoveSubscriber(roomData.value.subscriberIds, peerId);
            SetRoomData(d.roomId, roomData.value.(subscriberIds := newSubs));
          }
        }
      }
    }

    method RegisterPeer(peerId: string, nodeId: string, now: nat)
      modifies this
      ensures Abs() == Register(old(Abs()), peerId, nodeId, now)
    {
      var data := PeerData(peerId, "", false, nodeId, UnixSeconds(now));
      var existing := GetPeerData(peerId);
      if existing.Some? {
        data := data.(roomId := existing.value.roomId, isPublisher := existing.value.isPublisher);
      }
      SetPeerData(peerId, data);
    }

    method UnregisterPeer(peerId: string) returns (meta: Option<PeerMeta>)
      modifies this
      ensures (Abs(), PeerIs(meta)) == Step(old(Abs()), SignalStore.UnregisterPeer(peerId))
    {
      var data := GetPeerData(peerId);
      if data.None? {
        return None;
      }
      meta := Some(ToPeerMeta(data.value));
      DepartRoom(data.value, peerId);
      peerKeys := peerKeys - {peerId};
      peersSet := peersSet - {peerId};
    }

    method GetPeer(peerId: string) returns (meta: Option<PeerMeta>)
      ensures PeerIs(meta) == Step(Abs(), SignalStore.GetPeer(peerId)).1
    {
      var data := GetPeerData(peerId);
      return if data.None? then None else Some(ToPeerMeta(data.value));
    }

    method EnsurePeer(peerId: string, nodeId: string, now: nat) returns (meta: PeerMeta)
      modifies this
      ensures (Abs(), PeerIs(Some(meta))) == Step(old(Abs()), SignalStore.EnsurePeer(peerId, nodeId, now))
    {
      var data := GetPeerData(peerId);
      if data.Some? {
        return ToPeerMeta(data.value);
      }
      var created := PeerData(peerId, "", false, nodeId, UnixSeconds(now));
      SetPeerData(peerId, created);
      return ToPeerMeta(created);
    }

    method CreateRoom(roomId: string, publisherId: string, maxSubs: int) returns (error: Option<Error>)
      modifies this
      ensures (Abs(), if error.None? then Done else Failed(error.value)) ==
              Create(old(Abs()), roomId, publisherId, maxSubs)
    {
      var existing := GetRoomData(roomId);
      if existing.Some? {
        return Some(RoomExists(roomId));
      }
      SetRoomData(roomId, RoomData(roomId, publisherId, [], maxSubs, None));
      var peerData := GetPeerData(publisherId);
      if peerData.Some? {
        SetPeerData(publisherId, peerData.value.(roomId := roomId, isPublisher := true));
      }
      return None;
    }

    method JoinRoom(roomId: string, subscriberId: string) returns (error: Option<Error>, meta: Option<RoomMeta>)
      modifies this
      ensures (Abs(), if error.None? then RoomIs(meta) else Failed(error.value)) ==
              Join(old(Abs()), roomId, subscriberId)
    {
      var existing := GetRoomData(roomId);
      if existing.None? {
        return Some(RoomNotFound(roomId)), None;
      }
      var roomData := existing.value;
      if |roomData.subscriberIds| >= roomData.maxSubscribers {
        return Some(RoomFull(roomId, |roomData.subscriberIds|, roomData.maxSubscribers)), None;
      }
      roomData := roomData.(subscriberIds := roomData.subscriberIds + [subscriberId]);
      SetRoomData(roomId, roomData);
      var peerData := GetPeerData(subscriberId);
      if peerData.Some? {
        SetPeerData(subscriberId, peerData.value.(roomId := roomId, isPublisher := false));
      }
      return None, Some(ToRoomMeta(roomData));
    }

    method LeaveRoom(peerId: string)
      modifies this
      ensures Abs() == Leave(old(Abs()), peerId)
    {
      var peerData := GetPeerData(peerId);
      if peerData.None? || peerData.value.roomId == "" {
        return;
      }
      DepartRoom(peerData.value, peerId);
      SetPeerData(peerId, peerData.value.(roomId := "", isPublisher := false));
    }

    method CacheOffer(roomId: string, offer: Option<CachedIce>) returns (error: Option<Error>)
      modifies this
      ensures (Abs(), if error.None? then Done else Failed(error.value)) == Offer(old(Abs()), roomId, offer)
    {
      var data := GetRoomData(roomId);
      if data.None? {
        return Some(RoomNotFound(roomId));
      }
      SetRoomData(roomId, data.value.(cachedOffer := offer));
      return None;
    }

    method GetRoom(roomId: string) returns (meta: Option<RoomMeta>)
      ensures RoomIs(meta) == Step(Abs(), SignalStore.GetRoom(roomId)).1
    {
      var data := GetRoomData(roomId);
      return if data.None? then None else Some(ToRoomMeta(data.value));
    }

    method GetCachedOffer(roomId: string) returns (offer: Option<CachedIce>)
      ensures OfferIs(offer) == Step(Abs(), SignalStore.GetCachedOffer(roomId)).1
    {
      var data := GetRoomData(roomId);
      return if data.None? then None else data.value.cachedOffer;
    }

    /** Follows the index set and skips names that have no record. */
    method ListPeers() returns (result: seq<PeerMeta>)
      ensures Peers(Elements(result)) == Step(Abs(), SignalStore.ListPeers).1
      ensures Keyed(Abs()) ==> NoDuplicates(result)
    {
      result := [];
      var ids := peersSet;
      while ids != {}
        invariant ids <= peersSet
        invariant Elements(result) == set id | id in peersSet - ids && id in peerKeys :: ToPeerMeta(peerKeys[id])
        invariant Keyed(Abs()) ==> forall i :: 0 <= i < |result| ==> result[i].id in peersSet - ids
        invariant Keyed(Abs()) ==> NoDuplicates(result)
        decreases ids
      {
        var id :| id in ids;
        ids := ids - {id};
        var data := GetPeerData(id);
        if data.Some? {
          ElementsSnoc(result, ToPeerMeta(data.value));
          result := result + [ToPeerMeta(data.value)];
        }
      }
    }

    method ListRooms() returns (result: seq<RoomMeta>)
      ensures Rooms(Elements(result)) == Step(Abs(), SignalStore.ListRooms).1
      ensures Keyed(Abs()) ==> NoDuplicates(result)
    {
      result := [];
      var ids := roomsSet;
      while ids != {}
        invariant ids <= roomsSet
        invariant Elements(result) == set id | id in roomsSet - ids && id in roomKeys :: ToRoomMeta(roomKeys[id])
        invariant Keyed(Abs()) ==> forall i :: 0 <= i < |result| ==> result[i].id in roomsSet - ids
        invariant Keyed(Abs()) ==> NoDuplicates(result)
        decreases ids
      {
        var id :| id in ids;
        ids := ids - {id};
        var data := GetRoomData(id);
        if data.Some? {
          ElementsSnoc(result, ToRoomMeta(data.value));
          result := result + [ToRoomMeta(data.value)];
        }
      }
    }
  }
}
