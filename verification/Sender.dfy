/** The send path: sequence numbers given out under the session's lock (p2pav.c), the fan-out
    into per-peer frame rings that drop their oldest entry, the cached keyframe injected when
    a peer connects, and the flush to the transport (p2p_adapter.c). */
module Sender {
  import opened Machine
  import opened Ring
  import opened PeerStates
  import opened Receiver

  const MAX_PEERS: nat := 10
  const FRAME_QUEUE_CAP: nat := 32

  datatype Entry = Entry(ftype: FrameType, key: bool, seqNo: u32, timestampUs: u64, data: Bytes)

  /** One peer: its ring, all entries ever put into it, and all entries written out. */
  datatype Tx = Tx(state: int, agent: bool, moq: Moq, queue: seq<Entry>, offered: seq<Entry>, wire: seq<Entry>)

  datatype Net = Net(videoSeq: u32, audioSeq: u32, cache: Option<Bytes>,
                     publisher: bool, running: bool, videoMuted: bool, audioMuted: bool, peers: seq<Tx>)

  // ---------- Specification of one peer ----------

  function Enqueue(p: Tx, e: Entry, memOk: bool): Tx {
    if p.state != QUIC_CONNECTED then p
    else if memOk then
      p.(queue := Dropping(p.queue, DropPut(e), FRAME_QUEUE_CAP), offered := p.offered + [e])
    else
      p.(queue := Dropping(p.queue, PutFailed, FRAME_QUEUE_CAP))
  }

  predicate Eligible(p: Tx) {
    QUIC_CONNECTED <= p.state < FAILED && p.agent
  }

  /** The transport is subscribed to entries of this kind. */
  predicate Writable(e: Entry, m: Moq) {
    || (e.ftype.Video? && m.videoSub >= 0 && m.videoTrack)
    || (e.ftype.Audio? && m.audioSub >= 0 && m.audioTrack)
    || (e.ftype.Data? && m.channelReady)
  }

  /** The entries that are written: those of subscribed kinds, in order; an entry for the data
      channel needs memory for its message. */
  function Written(q: seq<Entry>, m: Moq, mem: seq<bool>): seq<Entry>
    requires |q| <= |mem|
  {
    if q == [] then []
    else
      var n := |q| - 1;
      Written(q[..n], m, mem) + if Writable(q[n], m) && (q[n].ftype.Data? ==> mem[n]) then [q[n]] else []
  }

  /** One entry more. */
  lemma {:induction false} WrittenNext(p: Tx, k: nat, mem: seq<bool>)
    requires k < |p.queue| <= |mem|
    ensures var (e, w) := (p.queue[k], Written(p.queue[..k], p.moq, mem));
            && p.queue[k..][0] == e && p.queue[k..][1..] == p.queue[k + 1..]
            && p.wire + Written(p.queue[..k + 1], p.moq, mem) ==
               p.wire + w + if Writable(e, p.moq) && (e.ftype.Data? ==> mem[k]) then [e] else []
  {
    assert p.queue[..k + 1][..k] == p.queue[..k];
  }

  function Flushed(p: Tx, mem: seq<bool>): Tx
    requires |p.queue| <= |mem|
  {
    if !p.moq.session then p else p.(queue := [], wire := p.wire + Written(p.queue, p.moq, mem))
  }

  // ---------- Specification of the session ----------

  function FanOut(peers: seq<Tx>, e: Entry, mem: seq<bool>): (r: seq<Tx>)
    requires |mem| == |peers|
    ensures |r| == |peers|
  {
    seq(|peers|, i requires 0 <= i < |peers| =>
      if Eligible(peers[i]) then Enqueue(peers[i], e, mem[i]) else peers[i])
  }

  function SendVideo(n: Net, key: bool, timestampUs: u64, data: Bytes, mem: seq<bool>): Net
    requires |mem| == |n.peers|
  {
    n.(videoSeq := Add32(n.videoSeq, 1),
       peers := FanOut(n.peers, Entry(Video, key, n.videoSeq, timestampUs, data), mem))
  }

  function SendAudio(n: Net, timestampUs: u64, data: Bytes, mem: seq<bool>): Net
    requires |mem| == |n.peers|
  {
    n.(audioSeq := Add32(n.audioSeq, 1),
       peers := FanOut(n.peers, Entry(Audio, false, n.audioSeq, timestampUs, data), mem))
  }

  /** A peer finishes its QUIC handshake; a publisher hands it the cached keyframe, under a
      number taken from the common counter. */
  function Connect(n: Net, i: nat, now: u64, memOk: bool): Net
    requires i < |n.peers|
  {
    var n1 := n.(peers := n.peers[i := n.peers[i].(state := QUIC_CONNECTED)]);
    if n.publisher && n.cache.Some? && |n.cache.value| > 0 then
      n1.(videoSeq := Add32(n.videoSeq, 1),
          peers := n1.peers[i := Enqueue(n1.peers[i], Entry(Video, true, n.videoSeq, now, n.cache.value), memOk)])
    else n1
  }

  // ---------- The code ----------

  class Peer {
    var state: int
    var agent: bool
    var moq: Moq
    const entries: array<Entry>
    var head: nat
    var count: nat
    ghost var offered: seq<Entry>
    ghost var wire: seq<Entry>

    ghost predicate Valid()
      reads this
    {
      entries.Length == FRAME_QUEUE_CAP && head < FRAME_QUEUE_CAP && count <= FRAME_QUEUE_CAP
    }

    ghost function Abs(): Tx
      requires Valid()
      reads this, entries
    {
      Tx(state, agent, moq, Segment(entries[..], head, count), offered, wire)
    }

    constructor ()
      ensures Valid() && fresh(entries)
      ensures Abs() == Tx(0, false, NO_MOQ, [], [], [])
    {
      entries := new Entry[FRAME_QUEUE_CAP](_ => Entry(Control, false, 0, 0, []));
      state, agent, moq, head, count := 0, false, NO_MOQ, 0, 0;
      offered, wire := [], [];
    }

    /** The loop body that frame_queue_clear and the flush share with the full-ring case. */
    method DropHead()
      requires Valid() && count > 0
      modifies `head, `count
      ensures Valid()
      ensures Abs() == old(Abs()).(queue := old(Abs()).queue[1..])
    {
      SegmentPop(entries[..], head, count);
      head := Wrap(head + 1, FRAME_QUEUE_CAP);
      count := count - 1;
    }

    /** The copy goes behind the newest entry. */
    method Append(e: Entry)
      requires Valid() && count < FRAME_QUEUE_CAP
      modifies `count, `offered, entries
      ensures Valid()
      ensures Abs() == old(Abs()).(queue := old(Abs()).queue + [e], offered := old(Abs()).offered + [e])
    {
      var idx := Wrap(head + count, FRAME_QUEUE_CAP);
      SegmentPush(entries[..], head, count, e);
      ghost var s := entries[..];
      entries[idx] := e;
      assert entries[..] == s[idx := e];
      count := count + 1;
      offered := offered + [e];
    }

    /** frame_queue_push, as p2p_peer_send_data_via_quic calls it. */
    method Push(e: Entry, memOk: bool) returns (rc: int)
      requires Valid()
      modifies this, entries
      ensures Valid()
      ensures Abs() == Enqueue(old(Abs()), e, memOk)
      ensures rc == if old(state) == QUIC_CONNECTED && memOk then 0 else -1
      ensures var (q, q1) := (old(Abs()).queue, Abs().queue);
              q1 == if old(state) != QUIC_CONNECTED then q
                    else (if |q| < 32 then q else q[1..]) + if memOk then [e] else []
    {
      if state != QUIC_CONNECTED {
        return -1;
      }
      if count >= FRAME_QUEUE_CAP {
        DropHead();
      }
      if !memOk {
        return -1;
      }
      Append(e);
      return 0;
    }

    method Clear()
      requires Valid()
      modifies `head, `count
      ensures Valid()
      ensures Abs() == old(Abs()).(queue := [])
    {
      while count > 0
        invariant Valid()
        invariant Abs() == old(Abs()).(queue := Abs().queue)
      {
        DropHead();
      }
    }

    /** Writes the oldest entry if the transport is subscribed to its kind, and frees it. */
    method FlushHead(memOk: bool)
      requires Valid() && count > 0
      modifies `head, `count, `wire
      ensures Valid() && count == old(count) - 1
      ensures var p := old(Abs());
              var e := p.queue[0];
              Abs() == p.(queue := p.queue[1..],
                          wire := p.wire + if Writable(e, p.moq) && (e.ftype.Data? ==> memOk) then [e] else [])
    {
      SegmentPop(entries[..], head, count);
      var e := entries[head];
      if Writable(e, moq) {
        if !e.ftype.Data? || memOk {
          wire := wire + [e];
        }
      }
      DropHead();
    }

    /** p2p_peer_flush_send_queue. */
    method Flush(mem: seq<bool>) returns (rc: int)
      requires Valid() && count <= |mem|
      modifies `head, `count, `wire
      ensures Valid()
      ensures Abs() == Flushed(old(Abs()), mem)
      ensures rc == if moq.session then 1 else -1
    {
      if !moq.session {
        return -1;
      }
      ghost var p, n := Abs(), count;
      var k := 0;
      while count > 0
        invariant Valid() && k + count == n == |p.queue|
        invariant Abs() == p.(queue := p.queue[k..], wire := p.wire + Written(p.queue[..k], p.moq, mem))
      {
        FlushHead(mem[k]);
        WrittenNext(p, k, mem);
        k := k + 1;
      }
      assert p.queue[..k] == p.queue;
      return 1;
    }
  }

  class Session {
    var videoSeq: u32
    var audioSeq: u32
    var idrCache: Option<Bytes>
    const publisher: bool
    var running: bool
    var videoMuted: bool
    var audioMuted: bool
    const peers: seq<Peer>

    /** The peers are separate objects with separate rings. */
    ghost predicate Valid()
      reads this, peers
    {
      && |peers| == MAX_PEERS
      && (forall i :: 0 <= i < |peers| ==> peers[i].Valid())
      && (forall i, j :: 0 <= i < j < |peers| ==> peers[i] != peers[j] && peers[i].entries != peers[j].entries)
    }

    ghost function Rings(): set<object>
    {
      set i | 0 <= i < |peers| :: peers[i].entries
    }

    ghost function PeersAbs(): (r: seq<Tx>)
      requires Valid()
      reads this, peers, Rings()
      ensures |r| == MAX_PEERS
    {
      seq(MAX_PEERS, i requires 0 <= i < MAX_PEERS && peers[i].Valid() reads this, peers, Rings() => peers[i].Abs())
    }

    ghost function Abs(): Net
      requires Valid()
      reads this, peers, Rings()
    {
      Net(videoSeq, audioSeq, idrCache, publisher, running, videoMuted, audioMuted, PeersAbs())
    }

    /** One peer's turn in send_to_all_peers_internal. */
    method SendToPeer(i: nat, e: Entry, memOk: bool)
      requires Valid() && i < MAX_PEERS
      modifies peers[i], peers[i].entries
      ensures Valid()
      ensures peers[i].Abs() == if Eligible(old(peers[i].Abs())) then Enqueue(old(peers[i].Abs()), e, memOk)
                                else old(peers[i].Abs())
      ensures forall j :: 0 <= j < MAX_PEERS && j != i ==> peers[j].Abs() == old(peers[j].Abs())
    {
      var p := peers[i];
      if QUIC_CONNECTED <= p.state < FAILED && p.agent {
        var _ := p.Push(e, memOk);
      }
    }

    /** send_to_all_peers_internal. */
    method SendToAll(e: Entry, mem: seq<bool>)
      requires Valid() && |mem| == MAX_PEERS
      modifies peers, Rings()
      ensures Valid()
      ensures PeersAbs() == FanOut(old(PeersAbs()), e, mem)
    {
      ghost var before := PeersAbs();
      for i := 0 to MAX_PEERS
        invariant Valid()
        invariant forall j :: 0 <= j < MAX_PEERS ==>
                    peers[j].Abs() == if j < i then FanOut(before, e, mem)[j] else before[j]
      {
        SendToPeer(i, e, mem[i]);
      }
    }

    /** The first lock of p2pav_video_send: keeps the latest keyframe. */
    method CacheIdr(data: Bytes, memOk: bool)
      modifies `idrCache
      ensures idrCache == if memOk then Some(data) else old(idrCache)
    {
      if memOk {
        idrCache := Some(data);
      }
    }

    /** The second lock of p2pav_video_send: numbers the frame and fans it out. */
    method NumberAndSend(key: bool, timestampUs: u64, data: Bytes, mem: seq<bool>)
      requires Valid() && |mem| == MAX_PEERS
      modifies `videoSeq, peers, Rings()
      ensures Valid()
      ensures Abs() == SendVideo(old(Abs()), key, timestampUs, data, mem)
    {
      var seqNo := videoSeq;
      videoSeq := Add32(videoSeq, 1);
      SendToAll(Entry(Video, key, seqNo, timestampUs, data), mem);
    }

    /** p2pav_video_send, run without interference between its two locks. */
    method VideoSend(key: bool, timestampUs: u64, data: Bytes, cacheOk: bool, mem: seq<bool>) returns (sent: bool)
      requires Valid() && |mem| == MAX_PEERS
      modifies `videoSeq, `idrCache, peers, Rings()
      ensures Valid()
      ensures sent <==> running && !videoMuted
      ensures !sent ==> Abs() == old(Abs())
      ensures sent ==>
                var n := old(Abs());
                var cached := if key && cacheOk then n.(cache := Some(data)) else n;
                Abs() == SendVideo(cached, key, timestampUs, data, mem)
    {
      if !running || videoMuted {
        return false;
      }
      if key {
        CacheIdr(data, cacheOk);
      }
      NumberAndSend(key, timestampUs, data, mem);
      return true;
    }

    /** p2pav_audio_send. */
    method AudioSend(timestampUs: u64, data: Bytes, mem: seq<bool>) returns (sent: bool)
      requires Valid() && |mem| == MAX_PEERS
      modifies `audioSeq, peers, Rings()
      ensures Valid()
      ensures sent <==> running && !audioMuted
      ensures Abs() == if sent then SendAudio(old(Abs()), timestampUs, data, mem) else old(Abs())
    {
      if !running || audioMuted {
        return false;
      }
      var seqNo := audioSeq;
      audioSeq := Add32(audioSeq, 1);
      SendToAll(Entry(Audio, false, seqNo, timestampUs, data), mem);
      return true;
    }

    /** The end of the handshake with peer i, and internal_on_quic_connected. */
    method OnQuicConnected(i: nat, now: u64, memOk: bool)
      requires Valid() && i < MAX_PEERS
      modifies `videoSeq, peers[i], peers[i].entries
      ensures Valid()
      ensures Abs() == Connect(old(Abs()), i, now, memOk)
      ensures publisher && idrCache.Some? && |idrCache.value| > 0 && memOk ==>
                var q := peers[i].Abs().queue;
                q != [] && q[|q| - 1] == Entry(Video, true, old(videoSeq), now, idrCache.value)
    {
      var peer := peers[i];
      peer.state := QUIC_CONNECTED;
      if publisher && idrCache.Some? && |idrCache.value| > 0 {
        var seqNo := videoSeq;
        videoSeq := Add32(videoSeq, 1);
        var _ := peer.Push(Entry(Video, true, seqNo, now, idrCache.value), memOk);
      }
    }
  }
}
