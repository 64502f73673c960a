/** What each call changes in the stores of the signaling server, told record by record without
    the functions that carry the calls out; and who is in a room after any run of calls. */
module StoreLaws {
  import opened Machine
  import opened SignalStore
  import opened Subsequences
  import M = MemoryStore
  import R = RedisStore

  // ---------- What a call does to the memory store ----------

  /** A room comes into being. */
  predicate Creates(s: M.State, op: Op, r: string) {
    op.CreateRoom? && op.roomId == r && r !in s.rooms
  }

  /** A subscriber is let in: the room exists and has a place. */
  predicate LetsIn(s: M.State, op: Op, r: string) {
    op.JoinRoom? && op.roomId == r && r in s.rooms && |s.rooms[r].subscribers| < s.rooms[r].maxSubscribers
  }

  /** A known peer leaves, or is unregistered, while its record names room r. */
  predicate GoesFrom(s: M.State, op: Op, r: string) {
    && (op.LeaveRoom? || op.UnregisterPeer?) && op.peerId in s.peers
    && s.peers[op.peerId].roomId == r != ""
  }

  /** Its publisher goes, and takes the room along. */
  predicate Ends(s: M.State, op: Op, r: string) {
    GoesFrom(s, op, r) && s.peers[op.peerId].isPublisher
  }

  /** A subscriber goes, and gives up its place. */
  predicate GivesUp(s: M.State, op: Op, r: string, id: string) {
    GoesFrom(s, op, r) && op.peerId == id && !s.peers[id].isPublisher
  }

  predicate Registers(op: Op, id: string) {
    (op.RegisterPeer? || op.EnsurePeer?) && op.peerId == id
  }

  /** Which rooms there are, and what belongs to a room besides its subscribers. */
  lemma {:induction false} RoomChanges(s: M.State, op: Op, r: string)
    ensures var s1 := M.Step(s, op).0;
            && (r in s1.rooms <==> Creates(s, op, r) || (r in s.rooms && !Ends(s, op, r)))
            && (Creates(s, op, r) ==> s1.rooms[r] == M.Room(r, op.publisherId, {}, op.maxSubs, None))
            && (r in s1.rooms && !Creates(s, op, r) ==>
                  && s1.rooms[r].id == s.rooms[r].id && s1.rooms[r].publisherId == s.rooms[r].publisherId
                  && s1.rooms[r].maxSubscribers == s.rooms[r].maxSubscribers
                  && s1.rooms[r].cachedOffer ==
                     if op.CacheOffer? && op.roomId == r then op.offer else s.rooms[r].cachedOffer)
  {
    match op
    case RegisterPeer(_, _, _) =>
    case UnregisterPeer(_) =>
    case GetPeer(_) =>
    case EnsurePeer(_, _, _) =>
    case CreateRoom(_, _, _) =>
    case JoinRoom(_, _) =>
    case LeaveRoom(_) =>
    case GetRoom(_) =>
    case CacheOffer(_, _) =>
    case GetCachedOffer(_) =>
    case ListPeers =>
    case ListRooms =>
  }

  /** Who is in a room that was there before and is there afterwards. */
  lemma {:induction false} MembersChange(s: M.State, op: Op, r: string, id: string)
    requires r in s.rooms && !Ends(s, op, r)
    ensures r in M.Step(s, op).0.rooms
    ensures id in M.Step(s, op).0.rooms[r].subscribers <==>
            || (LetsIn(s, op, r) && op.subscriberId == id)
            || (id in s.rooms[r].subscribers && !GivesUp(s, op, r, id))
  {
    match op
    case RegisterPeer(_, _, _) =>
    case UnregisterPeer(_) =>
    case GetPeer(_) =>
    case EnsurePeer(_, _, _) =>
    case CreateRoom(_, _, _) =>
    case JoinRoom(_, _) =>
    case LeaveRoom(_) =>
    case GetRoom(_) =>
    case CacheOffer(_, _) =>
    case GetCachedOffer(_) =>
    case ListPeers =>
    case ListRooms =>
  }

  /** The room and role that the record of a known peer names afterwards. */
  function PlaceAfter(s: M.State, op: Op, id: string): (string, bool)
    requires id in s.peers
  {
    var p := s.peers[id];
    if op.CreateRoom? && op.publisherId == id && op.roomId !in s.rooms then (op.roomId, true)
    else if op.JoinRoom? && op.subscriberId == id && LetsIn(s, op, op.roomId) then (op.roomId, false)
    else if op == LeaveRoom(id) && p.roomId != "" then ("", p.isPublisher && p.roomId !in s.rooms)
    else (p.roomId, p.isPublisher)
  }

  /** Which peers are known, where each of them is, and when and where it was last seen. */
  lemma {:induction false} PeerChanges(s: M.State, op: Op, id: string)
    ensures var s1 := M.Step(s, op).0;
            && (id in s1.peers <==> Registers(op, id) || (id in s.peers && op != UnregisterPeer(id)))
            && (id in s1.peers && id !in s.peers ==> s1.peers[id] == PeerMeta(id, "", false, op.nodeId, op.now))
            && (id in s1.peers && id in s.peers ==>
                  && s1.peers[id].id == s.peers[id].id
                  && (s1.peers[id].roomId, s1.peers[id].isPublisher) == PlaceAfter(s, op, id)
                  && (s1.peers[id].nodeId, s1.peers[id].onlineAt) ==
                     if op.RegisterPeer? && op.peerId == id then (op.nodeId, op.now)
                     else (s.peers[id].nodeId, s.peers[id].onlineAt))
  {
    match op
    case RegisterPeer(_, _, _) =>
    case UnregisterPeer(_) =>
    case GetPeer(_) =>
    case EnsurePeer(_, _, _) =>
    case CreateRoom(_, _, _) =>
    case JoinRoom(_, _) =>
    case LeaveRoom(_) =>
    case GetRoom(_) =>
    case CacheOffer(_, _) =>
    case GetCachedOffer(_) =>
    case ListPeers =>
    case ListRooms =>
  }

  /** A call fails exactly when its room is missing, there already, or full, and then changes
      nothing; a join that does not fail is answered with the room as it is afterwards. */
  lemma {:induction false} FailsExactly(s: M.State, op: Op)
    ensures var (s1, answer) := M.Step(s, op);
            && (answer.Failed? ==> s1 == s)
            && (op.CreateRoom? ==> answer == if op.roomId in s.rooms then Failed(RoomExists(op.roomId)) else Done)
            && (op.CacheOffer? ==> answer == if op.roomId !in s.rooms then Failed(RoomNotFound(op.roomId)) else Done)
            && (op.JoinRoom? ==>
                  if op.roomId !in s.rooms then answer == Failed(RoomNotFound(op.roomId))
                  else
                    var (n, limit) := (|s.rooms[op.roomId].subscribers|, s.rooms[op.roomId].maxSubscribers);
                    if n >= limit then answer == Failed(RoomFull(op.roomId, n, limit))
                    else op.roomId in s1.rooms && answer == RoomIs(Some(s1.rooms[op.roomId])))
  {}

  // ---------- Who is in a room ----------

  /** Call j of the run ends room r, or gives up the place of peer id in it. */
  ghost predicate Undone(ops: seq<Op>, j: nat, r: string, id: string)
    requires j < |ops|
  {
    Ends(M.Run(ops[..j]), ops[j], r) || GivesUp(M.Run(ops[..j]), ops[j], r, id)
  }

  /** Call i of the run lets peer id into room r, and nothing behind it ends the room or gives
      up the place. */
  ghost predicate InSince(ops: seq<Op>, i: nat, r: string, id: string)
    requires i < |ops|
  {
    && ops[i] == JoinRoom(r, id) && LetsIn(M.Run(ops[..i]), ops[i], r)
    && forall j: nat :: i < j < |ops| ==> !Undone(ops, j, r, id)
  }

  lemma {:induction false} UndoneBefore(ops: seq<Op>, j: nat, r: string, id: string)
    requires j < |ops| - 1
    ensures Undone(ops, j, r, id) <==> Undone(ops[..|ops| - 1], j, r, id)
  {
    assert ops[..|ops| - 1][..j] == ops[..j];
  }

  lemma {:induction false} StillIn(ops: seq<Op>, i: nat, r: string, id: string)
    requires i < |ops| - 1
    ensures InSince(ops, i, r, id) <==> InSince(ops[..|ops| - 1], i, r, id) && !Undone(ops, |ops| - 1, r, id)
  {
    var before := ops[..|ops| - 1];
    assert before[..i] == ops[..i] && before[i] == ops[i];
    forall j: nat | i < j < |ops| - 1 ensures Undone(ops, j, r, id) <==> Undone(before, j, r, id) {
      UndoneBefore(ops, j, r, id);
    }
  }

  lemma {:induction false} JustLetIn(ops: seq<Op>, r: string, id: string)
    requires ops != []
    ensures var (before, op) := (ops[..|ops| - 1], ops[|ops| - 1]);
            InSince(ops, |ops| - 1, r, id) <==> op == JoinRoom(r, id) && LetsIn(M.Run(before), op, r)
  {}

  /** After any run of calls a peer is among a room's subscribers exactly when it has been let
      in, and has neither given up its place nor seen the room end since. */
  lemma {:induction false} MembersHaveJoined(ops: seq<Op>, r: string, id: string)
    ensures r in M.Run(ops).rooms && id in M.Run(ops).rooms[r].subscribers <==>
            exists i: nat :: i < |ops| && InSince(ops, i, r, id)
  {
    if ops == [] {
    } else {
      var n := |ops| - 1;
      var before, op := ops[..n], ops[n];
      var s := M.Run(before);
      MembersHaveJoined(before, r, id);
      RoomChanges(s, op, r);
      JustLetIn(ops, r, id);
      if r in s.rooms && !Ends(s, op, r) {
        MembersChange(s, op, r, id);
      }
      if r in s.rooms && id in s.rooms[r].subscribers && !Ends(s, op, r) && !GivesUp(s, op, r, id) {
        var i: nat :| i < n && InSince(before, i, r, id);
        StillIn(ops, i, r, id);
      }
      if i: nat :| i < n && InSince(ops, i, r, id) {
        StillIn(ops, i, r, id);
      }
    }
  }

  // ---------- Subscriber lists in Redis ----------

  /** The list without every entry of id, all others kept in order. */
  ghost predicate Strikes(ids: seq<string>, ids1: seq<string>, id: string) {
    && id !in ids1 && Sub(ids1, ids)
    && forall x <- ids :: x != id ==> multiset(ids1)[x] == multiset(ids)[x]
  }

  lemma {:induction false} OneMoreEntry(rest: seq<string>, front: seq<string>, x: string, keep: bool)
    requires Sub(rest, front)
    ensures Sub(rest + (if keep then [x] else []), front + [x])
  {
    SubSnoc(rest, front, x);
    assert rest + [] == rest;
  }

  lemma {:induction false} WithoutInOrder(ids: seq<string>, id: string)
    ensures Sub(R.Without(ids, id), ids) && id !in R.Without(ids, id)
  {
    if ids == [] {
    } else {
      var n := |ids| - 1;
      var rest := R.Without(ids[..n], id);
      WithoutInOrder(ids[..n], id);
      OneMoreEntry(rest, ids[..n], ids[n], ids[n] != id);
      assert ids[..n] + [ids[n]] == ids;
    }
  }

  lemma {:induction false} WithoutKeeps(ids: seq<string>, id: string, x: string)
    requires x != id
    ensures multiset(R.Without(ids, id))[x] == multiset(ids)[x]
  {
    if ids == [] {
    } else {
      var n := |ids| - 1;
      WithoutKeeps(ids[..n], id, x);
      assert ids == ids[..n] + [ids[n]];
    }
  }

  lemma {:induction false} WithoutStrikes(ids: seq<string>, id: string)
    ensures Strikes(ids, R.Without(ids, id), id)
  {
    WithoutInOrder(ids, id);
    forall x <- ids | x != id ensures multiset(R.Without(ids, id))[x] == multiset(ids)[x] {
      WithoutKeeps(ids, id, x);
    }
  }

  /** A peer leaves, or is unregistered, as a subscriber of room r. */
  predicate RedisGivesUp(s: R.State, op: Op, r: string) {
    && (op.LeaveRoom? || op.UnregisterPeer?) && op.peerId in s.peers
    && s.peers[op.peerId].roomId == r != "" && !s.peers[op.peerId].isPublisher
  }

  /** In every state, with entries repeated or not: a list gains an entry at its end when there
      is a place, loses all entries of a subscriber that goes, and changes in no other way. */
  lemma {:induction false} ListChanges(s: R.State, op: Op, r: string)
    requires r in s.rooms && r in R.Step(s, op).0.rooms
    ensures var (ids, ids1) := (s.rooms[r].subscriberIds, R.Step(s, op).0.rooms[r].subscriberIds);
            if op.JoinRoom? && op.roomId == r && |ids| < s.rooms[r].maxSubscribers then ids1 == ids + [op.subscriberId]
            else if RedisGivesUp(s, op, r) then Strikes(ids, ids1, op.peerId)
            else ids1 == ids
  {
    match op
    case RegisterPeer(_, _, _) =>
    case UnregisterPeer(id) =>
      WithoutStrikes(s.rooms[r].subscriberIds, id);
    case GetPeer(_) =>
    case EnsurePeer(_, _, _) =>
    case CreateRoom(_, _, _) =>
    case JoinRoom(_, _) =>
    case LeaveRoom(id) =>
      WithoutStrikes(s.rooms[r].subscriberIds, id);
    case GetRoom(_) =>
    case CacheOffer(_, _) =>
    case GetCachedOffer(_) =>
    case ListPeers =>
    case ListRooms =>
  }

  /** So a peer that joins a room it is in already, and that has a place, is moved in memory and
      listed twice in Redis; in both it counts as a subscriber of that room afterwards. */
  lemma {:induction false} WhatARejoinDoes(m: M.State, d: R.State, r: string, id: string)
    requires r in m.rooms && id in m.rooms[r].subscribers && |m.rooms[r].subscribers| < m.rooms[r].maxSubscribers
    requires r in d.rooms && |d.rooms[r].subscriberIds| < d.rooms[r].maxSubscribers
    ensures var (m1, answer) := M.Step(m, JoinRoom(r, id));
            && m1.rooms == m.rooms && answer == RoomIs(Some(m.rooms[r]))
            && (id in m.peers ==>
                  && m1.peers.Keys == m.peers.Keys && (forall x <- m.peers :: x != id ==> m1.peers[x] == m.peers[x])
                  && m1.peers[id].roomId == r && !m1.peers[id].isPublisher)
    ensures var d1 := R.Step(d, JoinRoom(r, id)).0;
            && d1.rooms.Keys == d.rooms.Keys
            && d1.rooms[r] == d.rooms[r].(subscriberIds := d.rooms[r].subscriberIds + [id])
            && (id in d.peers ==> d1.peers[id].roomId == r && !d1.peers[id].isPublisher)
  {
    assert m.rooms[r].subscribers + {id} == m.rooms[r].subscribers;
  }
}
