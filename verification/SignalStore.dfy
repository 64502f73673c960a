/** What the signaling server's two stores have in common (store.go): the records, the
    operations and the errors. */
module SignalStore {
  import opened Machine

  datatype CachedIce = CachedIce(from: string, sdp: string, candidates: seq<string>)

  /** onlineAt is a Unix time; in nanoseconds here, in whole seconds inside Redis. */
  datatype PeerMeta = PeerMeta(id: string, roomId: string, isPublisher: bool, nodeId: string, onlineAt: int)

  datatype RoomMeta = RoomMeta(id: string, publisherId: string, subscriberIds: seq<string>,
                               maxSubscribers: int, cachedOffer: Option<CachedIce>)

  datatype Error = RoomExists(id: string) | RoomNotFound(id: string) | RoomFull(id: string, count: nat, max: int)

  datatype Op =
    | RegisterPeer(peerId: string, nodeId: string, now: nat)
    | UnregisterPeer(peerId: string)
    | GetPeer(peerId: string)
    | EnsurePeer(peerId: string, nodeId: string, now: nat)
    | CreateRoom(roomId: string, publisherId: string, maxSubs: int)
    | JoinRoom(roomId: string, subscriberId: string)
    | LeaveRoom(peerId: string)
    | GetRoom(roomId: string)
    | CacheOffer(roomId: string, offer: Option<CachedIce>)
    | GetCachedOffer(roomId: string)
    | ListPeers
    | ListRooms

  /** P and R are the store's own views of a peer and of a room. */
  datatype Result<P, R> =
    | Done
    | Failed(error: Error)
    | PeerIs(peer: Option<P>)
    | RoomIs(room: Option<R>)
    | OfferIs(offer: Option<CachedIce>)
    | Peers(peers: set<P>)
    | Rooms(rooms: set<R>)

  /** No room is created with a negative limit. */
  predicate SaneLimits(ops: seq<Op>) {
    forall i :: 0 <= i < |ops| && ops[i].CreateRoom? ==> ops[i].maxSubs >= 0
  }

  predicate NoDuplicates<T(==)>(s: seq<T>) {
    forall i, j :: 0 <= i < j < |s| ==> s[i] != s[j]
  }

  function Elements<T>(s: seq<T>): set<T> {
    set x | x in s
  }

  lemma {:induction false} ElementsSnoc<T>(s: seq<T>, x: T)
    ensures Elements(s + [x]) == Elements(s) + {x}
  {}

  lemma {:induction false} CountOfElements<T>(s: seq<T>)
    requires NoDuplicates(s)
    ensures |Elements(s)| == |s|
  {
    if s == [] {
    } else {
      var n := |s| - 1;
      CountOfElements(s[..n]);
      assert Elements(s) == Elements(s[..n]) + {s[n]};
    }
  }
}
