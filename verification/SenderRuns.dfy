/** All interleavings of sends, keyframe injections, flushes and reconnects, taken one lock
    at a time; and the path from the sender over a lossy channel to the receiver. */
module SenderRuns {
  import opened Machine
  import opened PeerStates
  import opened Ring
  import opened Receiver
  import opened Subsequences
  import opened Sender
  import D = Decodability

  datatype Event =
    | CacheIdr(idr: Bytes)
    | VideoSent(key: bool, timestampUs: u64, data: Bytes, mem: seq<bool>)
    | AudioSent(timestampUs: u64, data: Bytes, mem: seq<bool>)
    | DataSent(i: nat, e: Entry, memOk: bool)
    | Connected(i: nat, now: u64, memOk: bool)
    | FlushedOut(i: nat, dcMem: seq<bool>)
    | Cleared(i: nat)
    | StatusChanged(i: nat, state: int, agent: bool, moq: Moq)

  /** The event concerns existing peers; only the session itself numbers video frames. */
  predicate Fits(ev: Event, n: Net) {
    match ev
    case CacheIdr(_) => true
    case VideoSent(_, _, _, mem) => |mem| == |n.peers|
    case AudioSent(_, _, mem) => |mem| == |n.peers|
    case DataSent(i, e, _) => i < |n.peers| && e.ftype.Data?
    case Connected(i, _, _) => i < |n.peers|
    case FlushedOut(i, dcMem) => i < |n.peers| && |n.peers[i].queue| <= |dcMem|
    case Cleared(i) => i < |n.peers|
    case StatusChanged(i, _, _, _) => i < |n.peers|
  }

  function Apply(n: Net, ev: Event): (r: Net)
    requires Fits(ev, n)
    ensures |r.peers| == |n.peers|
  {
    match ev
    case CacheIdr(idr) => n.(cache := Some(idr))
    case VideoSent(key, t, data, mem) => SendVideo(n, key, t, data, mem)
    case AudioSent(t, data, mem) => SendAudio(n, t, data, mem)
    case DataSent(i, e, memOk) => n.(peers := n.peers[i := Enqueue(n.peers[i], e, memOk)])
    case Connected(i, now, memOk) => Connect(n, i, now, memOk)
    case FlushedOut(i, dcMem) => n.(peers := n.peers[i := Flushed(n.peers[i], dcMem)])
    case Cleared(i) => n.(peers := n.peers[i := n.peers[i].(queue := [])])
    case StatusChanged(i, state, agent, moq) =>
      n.(peers := n.peers[i := n.peers[i].(state := state, agent := agent, moq := moq)])
  }

  /** st holds the states of the run evs. */
  ghost predicate Trace(st: seq<Net>, evs: seq<Event>)
    decreases |evs|
  {
    var n := |evs| - 1;
    && |st| == |evs| + 1
    && (evs != [] ==> Trace(st[..|evs|], evs[..n]) && Fits(evs[n], st[n]) && st[n + 1] == Apply(st[n], evs[n]))
  }

  ghost predicate Fresh(n: Net) {
    forall i :: 0 <= i < |n.peers| ==> n.peers[i].queue == [] && n.peers[i].offered == [] && n.peers[i].wire == []
  }

  // ---------- The invariant of one peer ----------

  predicate InOrder(a: Entry, b: Entry) {
    a.ftype.Video? && b.ftype.Video? ==> a.seqNo < b.seqNo
  }

  /** Video numbers strictly increase. */
  ghost predicate Ordered(es: seq<Entry>) {
    forall i, j :: 0 <= i < j < |es| ==> InOrder(es[i], es[j])
  }

  ghost predicate Below(es: seq<Entry>, n: int) {
    forall i :: 0 <= i < |es| && es[i].ftype.Video? ==> es[i].seqNo < n
  }

  ghost predicate Good(p: Tx, n: int) {
    Ordered(p.offered) && Below(p.offered, n) && Sub(p.wire + p.queue, p.offered)
  }

  lemma {:induction false} RoomGood(p: Tx, n: int)
    requires Good(p, n)
    ensures Sub(p.wire + MakeRoom(p.queue, FRAME_QUEUE_CAP), p.offered)
  {
    if |p.queue| >= FRAME_QUEUE_CAP {
      SubTail(p.queue);
      SubSame(p.wire);
      SubConcat(p.wire, p.wire, p.queue[1..], p.queue);
      SubTrans(p.wire + p.queue[1..], p.wire + p.queue, p.offered);
    }
  }

  lemma {:induction false} OrderedSnoc(es: seq<Entry>, e: Entry, n: int, n': int)
    requires Ordered(es) && Below(es, n) && n <= n' && (e.ftype.Video? ==> n <= e.seqNo < n')
    ensures Ordered(es + [e]) && Below(es + [e], n')
  {}

  lemma {:induction false} SubAppend(w: seq<Entry>, q: seq<Entry>, o: seq<Entry>, e: Entry)
    requires Sub(w + q, o)
    ensures Sub(w + (q + [e]), o + [e])
  {
    SubSnoc(w + q, o, e);
    assert w + (q + [e]) == w + q + [e];
  }

  lemma {:induction false} PutGood(p: Tx, room: seq<Entry>, e: Entry, n: int, n': int)
    requires Ordered(p.offered) && Below(p.offered, n) && Sub(p.wire + room, p.offered)
    requires n <= n' && (e.ftype.Video? ==> n <= e.seqNo < n')
    ensures Good(p.(queue := room + [e], offered := p.offered + [e]), n')
  {
    OrderedSnoc(p.offered, e, n, n');
    SubAppend(p.wire, room, p.offered, e);
  }

  lemma {:induction false} EnqueueGood(p: Tx, e: Entry, memOk: bool, n: int, n': int)
    requires Good(p, n) && n <= n' && (e.ftype.Video? ==> n <= e.seqNo < n')
    ensures Good(Enqueue(p, e, memOk), n')
  {
    if p.state == QUIC_CONNECTED && memOk {
      RoomGood(p, n);
      PutGood(p, MakeRoom(p.queue, FRAME_QUEUE_CAP), e, n, n');
    } else if p.state == QUIC_CONNECTED {
      RoomGood(p, n);
    }
  }

  lemma {:induction false} WrittenIsSub(q: seq<Entry>, m: Moq, mem: seq<bool>)
    requires |q| <= |mem|
    ensures Sub(Written(q, m, mem), q)
  {
    if q == [] {
    } else {
      var n := |q| - 1;
      WrittenIsSub(q[..n], m, mem);
      SubSnoc(Written(q[..n], m, mem), q[..n], q[n]);
      assert q == q[..n] + [q[n]];
      assert Written(q[..n], m, mem) + [] == Written(q[..n], m, mem);
    }
  }

  lemma {:induction false} FlushGood(p: Tx, mem: seq<bool>, n: int)
    requires Good(p, n) && |p.queue| <= |mem|
    ensures Good(Flushed(p, mem), n)
  {
    if p.moq.session {
      var w := Written(p.queue, p.moq, mem);
      WrittenIsSub(p.queue, p.moq, mem);
      SubSame(p.wire);
      SubConcat(p.wire, p.wire, w, p.queue);
      SubTrans(p.wire + w, p.wire + p.queue, p.offered);
      assert p.wire + w + [] == p.wire + w;
    }
  }

  lemma {:induction false} ClearGood(p: Tx, n: int)
    requires Good(p, n)
    ensures Good(p.(queue := []), n)
  {
    SubSame(p.wire);
    SubConcat(p.wire, p.wire, [], p.queue);
    SubTrans(p.wire + [], p.wire + p.queue, p.offered);
  }

  // ---------- The invariant of the session ----------

  ghost predicate AllGood(n: Net) {
    forall i :: 0 <= i < |n.peers| ==> Good(n.peers[i], n.videoSeq)
  }

  lemma {:induction false} GoodLater(p: Tx, n: int, n': int)
    requires Good(p, n) && n <= n'
    ensures Good(p, n')
  {}

  lemma {:induction false} ApplyGood(n: Net, ev: Event)
    requires AllGood(n) && Fits(ev, n) && n.videoSeq < TWO32 - 1
    ensures AllGood(Apply(n, ev)) && n.videoSeq <= Apply(n, ev).videoSeq <= n.videoSeq + 1
  {
    var r := Apply(n, ev);
    forall k | 0 <= k < |r.peers| ensures Good(r.peers[k], r.videoSeq) {
      var p := n.peers[k];
      GoodLater(p, n.videoSeq, r.videoSeq);
      match ev
      case CacheIdr(_) =>
      case VideoSent(key, t, data, mem) =>
        EnqueueGood(p, Entry(Video, key, n.videoSeq, t, data), mem[k], n.videoSeq, r.videoSeq);
      case AudioSent(t, data, mem) =>
        EnqueueGood(p, Entry(Audio, false, n.audioSeq, t, data), mem[k], n.videoSeq, r.videoSeq);
      case DataSent(_, e, memOk) =>
        EnqueueGood(p, e, memOk, n.videoSeq, r.videoSeq);
      case Connected(_, now, memOk) =>
        if r.videoSeq != n.videoSeq {
          EnqueueGood(p.(state := QUIC_CONNECTED), Entry(Video, true, n.videoSeq, now, n.cache.value), memOk,
                      n.videoSeq, r.videoSeq);
        }
      case FlushedOut(i, dcMem) =>
        if i == k {
          FlushGood(p, dcMem, n.videoSeq);
        }
      case Cleared(_) =>
        ClearGood(p, n.videoSeq);
      case StatusChanged(_, _, _, _) =>
    }
  }

  lemma {:induction false} RunGood(st: seq<Net>, evs: seq<Event>)
    requires Trace(st, evs) && Fresh(st[0]) && st[0].videoSeq + |evs| < TWO32
    ensures |st[|evs|].peers| == |st[0].peers|
    ensures AllGood(st[|evs|]) && st[|evs|].videoSeq <= st[0].videoSeq + |evs|
    decreases |evs|
  {
    if evs == [] {
      assert AllGood(st[0]);
    } else {
      RunGood(st[..|evs|], evs[..|evs| - 1]);
      ApplyGood(st[|evs| - 1], evs[|evs| - 1]);
    }
  }

  /** In every interleaving, each peer's written and queued entries are a subsequence of what
      it was offered, and their video numbers strictly increase. */
  lemma {:induction false} EveryPeerInOrder(st: seq<Net>, evs: seq<Event>, i: nat)
    requires Trace(st, evs) && Fresh(st[0]) && st[0].videoSeq + |evs| < TWO32 && i < |st[0].peers|
    ensures i < |st[|evs|].peers|
    ensures var p := st[|evs|].peers[i]; Sub(p.wire + p.queue, p.offered) && Ordered(p.wire + p.queue)
  {
    RunGood(st, evs);
    var p := st[|evs|].peers[i];
    assert Good(p, st[|evs|].videoSeq);
    SubPairs(InOrder, p.wire + p.queue, p.offered);
  }

  // ---------- Where the entries come from ----------

  /** The entry that an event hands out, if any: what it sends, or the cached keyframe. */
  function EntryOf(n: Net, ev: Event): seq<Entry> {
    match ev
    case VideoSent(key, t, data, _) => [Entry(Video, key, n.videoSeq, t, data)]
    case AudioSent(t, data, _) => [Entry(Audio, false, n.audioSeq, t, data)]
    case DataSent(_, e, _) => [e]
    case Connected(_, now, _) =>
      if n.publisher && n.cache.Some? && |n.cache.value| > 0
      then [Entry(Video, true, n.videoSeq, now, n.cache.value)] else []
    case _ => []
  }

  /** Everything handed out in a run, in order. */
  ghost function AllSent(st: seq<Net>, evs: seq<Event>): seq<Entry>
    requires |st| == |evs| + 1
  {
    if evs == [] then []
    else AllSent(st[..|evs|], evs[..|evs| - 1]) + EntryOf(st[|evs| - 1], evs[|evs| - 1])
  }

  /** An event adds its own entry, or nothing, to what a peer has been offered. */
  lemma {:induction false} OffersItsEntry(n: Net, ev: Event, i: nat)
    requires Fits(ev, n) && i < |n.peers|
    ensures var (before, after) := (n.peers[i].offered, Apply(n, ev).peers[i].offered);
            after == before || after == before + EntryOf(n, ev)
  {
    match ev
    case CacheIdr(_) =>
    case VideoSent(_, _, _, _) =>
    case AudioSent(_, _, _) =>
    case DataSent(_, _, _) =>
    case Connected(_, _, _) =>
    case FlushedOut(_, _) =>
    case Cleared(_) =>
    case StatusChanged(_, _, _, _) =>
  }

  lemma {:induction false} SubMore(a: seq<Entry>, b: seq<Entry>, more: seq<Entry>)
    requires Sub(a, b) && |more| <= 1
    ensures Sub(a, b + more) && Sub(a + more, b + more)
  {
    if more == [] {
      assert a + more == a && b + more == b;
    } else {
      SubSnoc(a, b, more[0]);
      assert more == [more[0]];
    }
  }

  /** What a peer has been offered is a subsequence of what the run has handed out. */
  lemma {:induction false} OfferedWasSent(st: seq<Net>, evs: seq<Event>, i: nat)
    requires Trace(st, evs) && Fresh(st[0]) && i < |st[0].peers|
    ensures |st[|evs|].peers| == |st[0].peers|
    ensures Sub(st[|evs|].peers[i].offered, AllSent(st, evs))
    decreases |evs|
  {
    if evs == [] {
    } else {
      var n, ev := st[|evs| - 1], evs[|evs| - 1];
      OfferedWasSent(st[..|evs|], evs[..|evs| - 1], i);
      OffersItsEntry(n, ev, i);
      SubMore(n.peers[i].offered, AllSent(st[..|evs|], evs[..|evs| - 1]), EntryOf(n, ev));
    }
  }

  /** The keyframe cached last in a run, or else the one there was before. */
  function LatestIdr(before: Option<Bytes>, evs: seq<Event>): Option<Bytes> {
    if evs == [] then before
    else
      match evs[|evs| - 1]
      case CacheIdr(idr) => Some(idr)
      case _ => LatestIdr(before, evs[..|evs| - 1])
  }

  /** A peer that connects is handed the keyframe that was cached last. */
  lemma {:induction false} CacheIsLatest(st: seq<Net>, evs: seq<Event>)
    requires Trace(st, evs)
    ensures st[|evs|].cache == LatestIdr(st[0].cache, evs) && st[|evs|].publisher == st[0].publisher
    decreases |evs|
  {
    if evs == [] {
    } else {
      CacheIsLatest(st[..|evs|], evs[..|evs| - 1]);
    }
  }

  // ---------- What a peer is due ----------

  // What the events of a run say about peer i and about the counters, without the functions
  // that carry the events out.

  function StateAfter(before: int, evs: seq<Event>, i: nat): int {
    if evs == [] then before
    else
      var rest, e := evs[..|evs| - 1], evs[|evs| - 1];
      if e.Connected? && e.i == i then QUIC_CONNECTED
      else if e.StatusChanged? && e.i == i then e.state
      else StateAfter(before, rest, i)
  }

  function AgentAfter(before: bool, evs: seq<Event>, i: nat): bool {
    if evs == [] then before
    else
      var rest, e := evs[..|evs| - 1], evs[|evs| - 1];
      if e.StatusChanged? && e.i == i then e.agent else AgentAfter(before, rest, i)
  }

  /** The keyframe that a peer is handed when it connects behind the events of evs. */
  function Injected(n0: Net, evs: seq<Event>): Option<Bytes> {
    var idr := LatestIdr(n0.cache, evs);
    if n0.publisher && idr.Some? && |idr.value| > 0 then idr else None
  }

  /** The number of video numbers that a run uses: one for each frame sent, and one for each
      keyframe handed to a connecting peer. */
  function VideosUsed(n0: Net, evs: seq<Event>): nat {
    if evs == [] then 0
    else
      var rest, e := evs[..|evs| - 1], evs[|evs| - 1];
      VideosUsed(n0, rest) + if e.VideoSent? || (e.Connected? && Injected(n0, rest).Some?) then 1 else 0
  }

  function AudiosUsed(evs: seq<Event>): nat {
    if evs == [] then 0 else AudiosUsed(evs[..|evs| - 1]) + if evs[|evs| - 1].AudioSent? then 1 else 0
  }

  /** The number of the next frame. */
  function VideoNumber(n0: Net, evs: seq<Event>): u32 {
    (n0.videoSeq + VideosUsed(n0, evs)) % TWO32
  }

  function AudioNumber(n0: Net, evs: seq<Event>): u32 {
    (n0.audioSeq + AudiosUsed(evs)) % TWO32
  }

  /** What event e, coming behind the events before, owes peer i: every frame while the peer is
      connected and has an agent, its own data while it is connected, and the latest keyframe
      when it connects; each as far as its copy finds memory. */
  function DueOf(n0: Net, before: seq<Event>, e: Event, i: nat): seq<Entry>
    requires i < |n0.peers|
  {
    var up := StateAfter(n0.peers[i].state, before, i) == QUIC_CONNECTED;
    var served := up && AgentAfter(n0.peers[i].agent, before, i);
    match e
    case VideoSent(key, t, data, mem) =>
      if served && i < |mem| && mem[i] then [Entry(Video, key, VideoNumber(n0, before), t, data)] else []
    case AudioSent(t, data, mem) =>
      if served && i < |mem| && mem[i] then [Entry(Audio, false, AudioNumber(n0, before), t, data)] else []
    case DataSent(j, entry, memOk) =>
      if j == i && up && memOk then [entry] else []
    case Connected(j, now, memOk) =>
      var idr := Injected(n0, before);
      if j == i && memOk && idr.Some? then [Entry(Video, true, VideoNumber(n0, before), now, idr.value)] else []
    case _ => []
  }

  /** What a run owes peer i, in order. */
  function AllDue(n0: Net, evs: seq<Event>, i: nat): seq<Entry>
    requires i < |n0.peers|
  {
    if evs == [] then []
    else AllDue(n0, evs[..|evs| - 1], i) + DueOf(n0, evs[..|evs| - 1], evs[|evs| - 1], i)
  }

  lemma {:induction false} StatusStep(n: Net, e: Event, i: nat)
    requires Fits(e, n) && i < |n.peers|
    ensures var (p, q) := (n.peers[i], Apply(n, e).peers[i]);
            && q.state == (if e.Connected? && e.i == i then QUIC_CONNECTED
                           else if e.StatusChanged? && e.i == i then e.state else p.state)
            && q.agent == (if e.StatusChanged? && e.i == i then e.agent else p.agent)
  {
    match e
    case CacheIdr(_) =>
    case VideoSent(_, _, _, _) =>
    case AudioSent(_, _, _) =>
    case DataSent(_, _, _) =>
    case Connected(_, _, _) =>
    case FlushedOut(_, _) =>
    case Cleared(_) =>
    case StatusChanged(_, _, _, _) =>
  }

  /** The counters after an event. */
  lemma {:induction false} CounterStep(n0: Net, before: seq<Event>, n: Net, e: Event)
    requires Fits(e, n) && n.cache == LatestIdr(n0.cache, before) && n.publisher == n0.publisher
    ensures Apply(n, e).videoSeq ==
            if e.VideoSent? || (e.Connected? && Injected(n0, before).Some?) then Add32(n.videoSeq, 1) else n.videoSeq
    ensures Apply(n, e).audioSeq == if e.AudioSent? then Add32(n.audioSeq, 1) else n.audioSeq
  {}

  lemma {:induction false} NextNumber(start: u32, used: nat)
    ensures Add32((start + used) % TWO32, 1) == (start + used + 1) % TWO32
  {}

  lemma {:induction false} NumbersTold(st: seq<Net>, evs: seq<Event>)
    requires Trace(st, evs)
    ensures st[|evs|].videoSeq == VideoNumber(st[0], evs) && st[|evs|].audioSeq == AudioNumber(st[0], evs)
    decreases |evs|
  {
    if evs == [] {
    } else {
      var k := |evs| - 1;
      NumbersTold(st[..|evs|], evs[..k]);
      CacheIsLatest(st[..|evs|], evs[..k]);
      CounterStep(st[0], evs[..k], st[k], evs[k]);
      NextNumber(st[0].videoSeq, VideosUsed(st[0], evs[..k]));
      NextNumber(st[0].audioSeq, AudiosUsed(evs[..k]));
    }
  }

  /** The trace's states are what the events say they are. */
  lemma {:induction false} EventsTell(st: seq<Net>, evs: seq<Event>, i: nat)
    requires Trace(st, evs) && i < |st[0].peers|
    ensures |st[|evs|].peers| == |st[0].peers|
    ensures Told(st[0], evs, st[|evs|], i)
    decreases |evs|
  {
    CacheIsLatest(st, evs);
    NumbersTold(st, evs);
    if evs == [] {
    } else {
      var k := |evs| - 1;
      EventsTell(st[..|evs|], evs[..k], i);
      StatusStep(st[k], evs[k], i);
    }
  }

  predicate Told(n0: Net, evs: seq<Event>, n: Net, i: nat)
    requires i < |n.peers| == |n0.peers|
  {
    && n.peers[i].state == StateAfter(n0.peers[i].state, evs, i)
    && n.peers[i].agent == AgentAfter(n0.peers[i].agent, evs, i)
    && n.videoSeq == VideoNumber(n0, evs) && n.audioSeq == AudioNumber(n0, evs)
    && n.cache == LatestIdr(n0.cache, evs) && n.publisher == n0.publisher
  }

  /** One event offers a peer what it owes it. */
  lemma {:induction false} OffersWhatIsDue(n0: Net, before: seq<Event>, n: Net, e: Event, i: nat)
    requires Fits(e, n) && i < |n.peers| == |n0.peers|
    requires Told(n0, before, n, i)
    ensures Apply(n, e).peers[i].offered == n.peers[i].offered + DueOf(n0, before, e, i)
  {
    match e
    case CacheIdr(_) =>
    case VideoSent(_, _, _, _) =>
    case AudioSent(_, _, _) =>
    case DataSent(_, _, _) =>
    case Connected(_, _, _) =>
    case FlushedOut(_, _) =>
    case Cleared(_) =>
    case StatusChanged(_, _, _, _) =>
  }

  /** In every interleaving a peer is offered exactly what it is due: all audio and video sent
      while it was connected with an agent, its own data and its own injected keyframes, each
      under its number, in order, and nothing else. */
  lemma {:induction false} OfferedIsDue(st: seq<Net>, evs: seq<Event>, i: nat)
    requires Trace(st, evs) && i < |st[0].peers|
    ensures |st[|evs|].peers| == |st[0].peers|
    ensures st[|evs|].peers[i].offered == st[0].peers[i].offered + AllDue(st[0], evs, i)
    decreases |evs|
  {
    if evs == [] {
    } else {
      var k := |evs| - 1;
      OfferedIsDue(st[..|evs|], evs[..k], i);
      EventsTell(st[..|evs|], evs[..k], i);
      OffersWhatIsDue(st[0], evs[..k], st[k], evs[k], i);
    }
  }

  lemma {:induction false} PeersStay(st: seq<Net>, evs: seq<Event>)
    requires Trace(st, evs)
    ensures |st[|evs|].peers| == |st[0].peers|
    decreases |evs|
  {
    if evs == [] {
    } else {
      PeersStay(st[..|evs|], evs[..|evs| - 1]);
    }
  }

  lemma {:induction false} ConnectHandsOver(n: Net, i: nat, now: u64, idr: Bytes)
    requires i < |n.peers| && n.publisher && n.cache == Some(idr) && |idr| > 0
    ensures var n1 := Connect(n, i, now, true);
            var (p, p1, e) := (n.peers[i], n1.peers[i], Entry(Video, true, n.videoSeq, now, idr));
            && p1.queue == (if |p.queue| >= FRAME_QUEUE_CAP then p.queue[1..] else p.queue) + [e]
            && p1.offered == p.offered + [e] && p1.wire == p.wire && p1.state == QUIC_CONNECTED
            && n1.videoSeq == Add32(n.videoSeq, 1)
            && forall j :: 0 <= j < |n.peers| && j != i ==> n1.peers[j] == n.peers[j]
  {}

  /** A peer that connects to a publisher that has cached a keyframe finds the one cached last
      at the end of its queue, under the number that was next; nobody else is given anything. */
  lemma {:induction false} ConnectingPeerGetsTheKeyframe(st: seq<Net>, evs: seq<Event>, i: nat, now: u64, idr: Bytes)
    requires Trace(st, evs + [Connected(i, now, true)])
    requires st[0].publisher && LatestIdr(st[0].cache, evs) == Some(idr) && |idr| > 0
    ensures i < |st[|evs|].peers| == |st[|evs| + 1].peers|
    ensures var (n, n1) := (st[|evs|], st[|evs| + 1]);
            var (p, p1, e) := (n.peers[i], n1.peers[i], Entry(Video, true, VideoNumber(st[0], evs), now, idr));
            && p1.queue == (if |p.queue| >= FRAME_QUEUE_CAP then p.queue[1..] else p.queue) + [e]
            && p1.offered == p.offered + [e] && p1.wire == p.wire && p1.state == QUIC_CONNECTED
            && n1.videoSeq == Add32(n.videoSeq, 1)
            && forall j :: 0 <= j < |n.peers| && j != i ==> n1.peers[j] == n.peers[j]
  {
    var all := evs + [Connected(i, now, true)];
    var before := st[..|all|];
    assert all[..|evs|] == evs;
    assert before[0] == st[0] && before[|evs|] == st[|evs|];
    PeersStay(before, evs);
    EventsTell(before, evs, i);
    ConnectHandsOver(st[|evs|], i, now, idr);
  }

  // ---------- What a peer's queue holds ----------

  predicate AllTrue(mem: seq<bool>) {
    forall i :: 0 <= i < |mem| ==> mem[i]
  }

  /** No copy of an entry fails for want of memory. */
  predicate CopiesSucceed(ev: Event) {
    match ev
    case VideoSent(_, _, _, mem) => AllTrue(mem)
    case AudioSent(_, _, mem) => AllTrue(mem)
    case DataSent(_, _, memOk) => memOk
    case Connected(_, _, memOk) => memOk
    case _ => true
  }

  /** The event empties peer i's queue: a clear, or a flush with a session to write to. */
  predicate Empties(n: Net, ev: Event, i: nat)
    requires i < |n.peers|
  {
    ev == Cleared(i) || (ev.FlushedOut? && ev.i == i && n.peers[i].moq.session)
  }

  /** What peer i has been due since its queue was last emptied. */
  ghost function SinceEmptied(st: seq<Net>, evs: seq<Event>, i: nat): seq<Entry>
    requires |st| == |evs| + 1 && forall k :: 0 <= k < |st| ==> i < |st[k].peers|
  {
    if evs == [] then []
    else
      var before, n, ev := evs[..|evs| - 1], st[|evs| - 1], evs[|evs| - 1];
      if Empties(n, ev, i) then [] else SinceEmptied(st[..|evs|], before, i) + DueOf(st[0], before, ev, i)
  }

  /** No entry has come and the queue has stayed, or one has come and gone to its end. */
  predicate Moved(q: seq<Entry>, q1: seq<Entry>, more: seq<Entry>) {
    (more == [] && q1 == q) || (|more| == 1 && q1 == MakeRoom(q, FRAME_QUEUE_CAP) + more)
  }

  lemma {:induction false} SameTail<T>(s: seq<T>, a: seq<T>, b: seq<T>)
    requires s + a == s + b
    ensures a == b
  {
    assert (s + a)[|s|..] == a && (s + b)[|s|..] == b;
  }

  lemma {:induction false} EnqueueMoves(p: Tx, e: Entry, more: seq<Entry>)
    requires Enqueue(p, e, true).offered == p.offered + more
    ensures Moved(p.queue, Enqueue(p, e, true).queue, more)
  {
    SameTail(p.offered, more, if p.state == QUIC_CONNECTED then [e] else []);
  }

  lemma {:induction false} NothingMoves(p: Tx, p1: Tx, more: seq<Entry>)
    requires p1.queue == p.queue && p1.offered == p.offered && p1.offered == p.offered + more
    ensures Moved(p.queue, p1.queue, more)
  {}

  lemma {:induction false} QueueMoves(n: Net, ev: Event, i: nat, more: seq<Entry>)
    requires Fits(ev, n) && CopiesSucceed(ev) && i < |n.peers| && !Empties(n, ev, i)
    requires Apply(n, ev).peers[i].offered == n.peers[i].offered + more
    ensures Moved(n.peers[i].queue, Apply(n, ev).peers[i].queue, more)
  {
    var p, p1, entry := n.peers[i], Apply(n, ev).peers[i], EntryOf(n, ev);
    var p0 := if ev.Connected? && ev.i == i then p.(state := QUIC_CONNECTED) else p;
    if entry != [] && p1 == Enqueue(p0, entry[0], true) {
      EnqueueMoves(p0, entry[0], more);
    } else {
      QueueStays(n, ev, i);
      NothingMoves(p, p1, more);
    }
  }

  lemma {:induction false} QueueStays(n: Net, ev: Event, i: nat)
    requires Fits(ev, n) && CopiesSucceed(ev) && i < |n.peers| && !Empties(n, ev, i)
    requires var p0 := if ev.Connected? && ev.i == i then n.peers[i].(state := QUIC_CONNECTED) else n.peers[i];
             EntryOf(n, ev) == [] || Apply(n, ev).peers[i] != Enqueue(p0, EntryOf(n, ev)[0], true)
    ensures var (p, p1) := (n.peers[i], Apply(n, ev).peers[i]); p1.queue == p.queue && p1.offered == p.offered
  {
    match ev
    case CacheIdr(_) =>
    case VideoSent(_, _, _, _) =>
    case AudioSent(_, _, _) =>
    case DataSent(_, _, _) =>
    case Connected(_, _, _) =>
    case FlushedOut(_, _) =>
    case Cleared(_) =>
    case StatusChanged(_, _, _, _) =>
  }

  /** In every run in which no copy fails, each peer's queue holds exactly the last 32 entries
      it was due since it was last emptied. */
  lemma {:induction false} QueueHoldsTheLast(st: seq<Net>, evs: seq<Event>, i: nat)
    requires Trace(st, evs) && Fresh(st[0]) && forall k :: 0 <= k < |st| ==> i < |st[k].peers|
    requires forall k :: 0 <= k < |evs| ==> CopiesSucceed(evs[k])
    ensures st[|evs|].peers[i].queue == Last(SinceEmptied(st, evs, i), FRAME_QUEUE_CAP)
    decreases |evs|
  {
    if evs == [] {
    } else {
      var before, n, ev := evs[..|evs| - 1], st[|evs| - 1], evs[|evs| - 1];
      QueueHoldsTheLast(st[..|evs|], before, i);
      if !Empties(n, ev, i) {
        var since, more := SinceEmptied(st[..|evs|], before, i), DueOf(st[0], before, ev, i);
        EventsTell(st[..|evs|], before, i);
        OffersWhatIsDue(st[0], before, n, ev, i);
        QueueMoves(n, ev, i, more);
        if more == [] {
          assert since + more == since;
        } else {
          LastOfMore(since, more[0], FRAME_QUEUE_CAP);
          assert more == [more[0]];
        }
      }
    }
  }

  // ---------- What a flush writes ----------

  function OfKind(es: seq<Entry>, t: FrameType): seq<Entry> {
    if es == [] then []
    else OfKind(es[..|es| - 1], t) + if es[|es| - 1].ftype == t then [es[|es| - 1]] else []
  }

  /** Whether an entry is written depends on its kind alone, but for data without memory. */
  lemma {:induction false} WrittenKind(q: seq<Entry>, m: Moq, mem: seq<bool>, t: FrameType)
    requires |q| <= |mem| && (t.Data? ==> AllTrue(mem))
    ensures OfKind(Written(q, m, mem), t) == if Writable(Entry(t, false, 0, 0, []), m) then OfKind(q, t) else []
  {
    if q == [] {
    } else {
      var n := |q| - 1;
      var last := if Writable(q[n], m) && (q[n].ftype.Data? ==> mem[n]) then [q[n]] else [];
      WrittenKind(q[..n], m, mem, t);
      KindMore(Written(q[..n], m, mem), last, t);
    }
  }

  lemma {:induction false} KindMore(w: seq<Entry>, last: seq<Entry>, t: FrameType)
    requires |last| <= 1
    ensures OfKind(w + last, t) == OfKind(w, t) + if last != [] && last[0].ftype == t then last else []
  {
    if last == [] {
      assert w + last == w;
    } else {
      assert (w + last)[..|w + last| - 1] == w && last == [last[0]];
    }
  }

  /** A flush takes everything out of the queue. Kind by kind it writes all that was queued,
      in order, or nothing: video with a video track and its subscription, audio with an audio
      track and its subscription, data with an open channel. Without a session it does nothing. */
  lemma {:induction false} FlushWritesWholeKinds(n: Net, i: nat, mem: seq<bool>)
    requires Fits(FlushedOut(i, mem), n)
    ensures var (p, p1) := (n.peers[i], Apply(n, FlushedOut(i, mem)).peers[i]);
            var m := p.moq;
            && (!m.session ==> p1 == p)
            && (m.session ==>
                  && p1.queue == [] && p.wire <= p1.wire
                  && var w := p1.wire[|p.wire|..];
                  && OfKind(w, Video) == (if m.videoTrack && m.videoSub >= 0 then OfKind(p.queue, Video) else [])
                  && OfKind(w, Audio) == (if m.audioTrack && m.audioSub >= 0 then OfKind(p.queue, Audio) else [])
                  && (AllTrue(mem) ==> OfKind(w, Data) == if m.channelReady then OfKind(p.queue, Data) else [])
                  && OfKind(w, Control) == OfKind(w, IdrRequest) == [])
  {
    var p := n.peers[i];
    if p.moq.session {
      WrittenKind(p.queue, p.moq, mem, Video);
      WrittenKind(p.queue, p.moq, mem, Audio);
      WrittenKind(p.queue, p.moq, mem, Control);
      WrittenKind(p.queue, p.moq, mem, IdrRequest);
      if AllTrue(mem) {
        WrittenKind(p.queue, p.moq, mem, Data);
      }
      assert (p.wire + Written(p.queue, p.moq, mem))[|p.wire|..] == Written(p.queue, p.moq, mem);
    }
  }

  // ---------- Sender, channel, receiver ----------

  function AsDelivery(e: Entry): Delivery {
    Delivery(e.ftype, e.key, e.timestampUs, e.data)
  }

  /** How an entry reaches the receiver's callback: whole, at some instant, and with memory
      for its copy or without. */
  function AsArrival(e: Entry, now: u64, memOk: bool): Arrival {
    Arrival(Header(e.ftype, e.key, e.seqNo, e.timestampUs, |e.data|, 0, |e.data|), e.data, now, now, memOk)
  }

  ghost function Arrivals(got: seq<Entry>, nows: seq<u64>, mem: seq<bool>): (run: seq<Arrival>)
    requires |got| == |nows| == |mem|
    ensures |run| == |got| && forall i :: 0 <= i < |got| ==> run[i] == AsArrival(got[i], nows[i], mem[i])
  {
    seq(|got|, i requires 0 <= i < |got| => AsArrival(got[i], nows[i], mem[i]))
  }

  /** Whatever a lossy channel passes on of what was written to a peer is in order. */
  lemma {:induction false} GotInOrder(st: seq<Net>, evs: seq<Event>, i: nat, got: seq<Entry>)
    requires Trace(st, evs) && Fresh(st[0]) && st[0].videoSeq + |evs| < TWO32
    requires i < |st[0].peers| == |st[|evs|].peers|
    requires Sub(got, st[|evs|].peers[i].wire)
    ensures Ordered(got) && Sub(got, st[|evs|].peers[i].offered) && Sub(got, AllSent(st, evs))
  {
    var p := st[|evs|].peers[i];
    EveryPeerInOrder(st, evs, i);
    SubSame(p.wire);
    SubConcat(p.wire, p.wire, [], p.queue);
    assert p.wire + [] == p.wire;
    SubTrans(got, p.wire, p.wire + p.queue);
    SubPairs(InOrder, got, p.wire + p.queue);
    SubTrans(got, p.wire + p.queue, p.offered);
    OfferedWasSent(st, evs, i);
    SubTrans(got, p.offered, AllSent(st, evs));
  }

  lemma {:induction false} ShownAsSent(got: seq<Entry>, nows: seq<u64>, mem: seq<bool>)
    requires |got| == |nows| == |mem| && forall k :: 0 <= k < |got| ==> got[k].ftype.Video?
    ensures D.AllShown(Arrivals(got, nows, mem)) == Map(AsDelivery, got)
  {
    var run := Arrivals(got, nows, mem);
    forall k | 0 <= k < |got| ensures D.Shown(run[k]) == AsDelivery(got[k]) {
      assert run[k] == AsArrival(got[k], nows[k], mem[k]);
    }
  }

  /** Subsequences of the entries that arrived are subsequences of those in es. */
  lemma {:induction false} ShownFrom(d: seq<Delivery>, got: seq<Entry>, es: seq<Entry>)
    requires Sub(d, Map(AsDelivery, got)) && Sub(got, es)
    ensures Sub(d, Map(AsDelivery, es))
  {
    SubMap(AsDelivery, got, es);
    SubTrans(d, Map(AsDelivery, got), Map(AsDelivery, es));
  }

  /** Take any run of the sender, any peer, and any video entries got that a channel which
      may lose but not reorder passes on. Then the receiver sees a run of whole frames, and
      what it delivers is a subsequence, payload for payload, of what was sent to that peer,
      and of all that was sent; and it is decodable exactly under the receiver's guards. */
  lemma {:induction false} EndToEnd(st: seq<Net>, evs: seq<Event>, i: nat,
                                    got: seq<Entry>, nows: seq<u64>, mem: seq<bool>, rx: Rx)
    requires Trace(st, evs) && Fresh(st[0]) && st[0].videoSeq + |evs| < TWO32
    requires i < |st[0].peers| == |st[|evs|].peers|
    requires Sub(got, st[|evs|].peers[i].wire)
    requires |got| == |nows| == |mem| && forall k :: 0 <= k < |got| ==> got[k].ftype.Video?
    requires D.Start(rx)
    ensures D.WholeRun(Arrivals(got, nows, mem))
    ensures var d := D.Deliveries(Run(rx, Arrivals(got, nows, mem)).outs);
            Sub(d, Map(AsDelivery, st[|evs|].peers[i].offered)) && Sub(d, Map(AsDelivery, AllSent(st, evs)))
    ensures var run := Arrivals(got, nows, mem);
            D.Decodable(run, Run(rx, run).outs) <==> forall k: nat :: k < |run| ==> D.Guarded(rx, run, k)
  {
    var run := Arrivals(got, nows, mem);
    GotInOrder(st, evs, i, got);
    forall k, l | 0 <= k < l < |run| ensures run[k].h.seqNo < run[l].h.seqNo {
      assert InOrder(got[k], got[l]);
    }
    assert D.WholeRun(run);
    D.OutputIsSubsequence(rx, run);
    D.DecodableIffGuarded(rx, run);
    ShownAsSent(got, nows, mem);
    var d := D.Deliveries(Run(rx, run).outs);
    ShownFrom(d, got, st[|evs|].peers[i].offered);
    ShownFrom(d, got, AllSent(st, evs));
  }

  // ---------- Peers that get every number ----------

  function Videos(es: seq<Entry>): seq<Entry> {
    if es == [] then []
    else Videos(es[..|es| - 1]) + if es[|es| - 1].ftype.Video? then [es[|es| - 1]] else []
  }

  lemma {:induction false} VideosMore(es: seq<Entry>, more: seq<Entry>)
    requires |more| <= 1
    ensures Videos(es + more) == Videos(es) + if more != [] && more[0].ftype.Video? then more else []
  {
    if more == [] {
      assert es + more == es;
    } else {
      assert (es + more)[..|es + more| - 1] == es && more == [more[0]];
    }
  }

  /** The video entries of a run are numbered without a gap. */
  lemma {:induction false} NumberedWithoutGap(st: seq<Net>, evs: seq<Event>)
    requires Trace(st, evs) && st[0].videoSeq + |evs| < TWO32
    ensures var v := Videos(AllSent(st, evs));
            && st[|evs|].videoSeq == st[0].videoSeq + |v| && |v| <= |evs|
            && forall k :: 0 <= k < |v| ==> v[k].ftype.Video? && v[k].seqNo == st[0].videoSeq + k
    decreases |evs|
  {
    if evs == [] {
    } else {
      var n, ev := st[|evs| - 1], evs[|evs| - 1];
      NumberedWithoutGap(st[..|evs|], evs[..|evs| - 1]);
      NumbersStep(n, ev);
      VideosMore(AllSent(st[..|evs|], evs[..|evs| - 1]), EntryOf(n, ev));
    }
  }

  /** An event uses a number exactly when it hands out a video entry, which carries it. */
  lemma {:induction false} NumbersStep(n: Net, ev: Event)
    requires Fits(ev, n) && n.videoSeq < TWO32 - 1
    ensures |EntryOf(n, ev)| <= 1
    ensures var video := EntryOf(n, ev) != [] && EntryOf(n, ev)[0].ftype.Video?;
            && Apply(n, ev).videoSeq == n.videoSeq + (if video then 1 else 0)
            && (video ==> EntryOf(n, ev)[0].seqNo == n.videoSeq)
  {}

  /** A peer that gets every video entry of a run from some entry on, say from its own
      keyframe, each fitting its buffer and finding memory, is shown every one of them, and
      what it is shown is decodable. */
  lemma {:induction false} AllNumbersAllShown(st: seq<Net>, evs: seq<Event>, from: nat,
                                              got: seq<Entry>, nows: seq<u64>, mem: seq<bool>, rx: Rx)
    requires Trace(st, evs) && st[0].videoSeq + |evs| < TWO32 && D.Start(rx)
    requires from <= |Videos(AllSent(st, evs))| && got == Videos(AllSent(st, evs))[from..]
    requires |got| == |nows| == |mem| && AllTrue(mem) && forall k :: 0 <= k < |got| ==> |got[k].data| <= VIDEO_MAX_SIZE
    ensures var run := Arrivals(got, nows, mem);
            && (forall k: nat :: k < |got| ==> Run(rx, run).outs[k] == Deliver(AsDelivery(got[k])))
            && D.Decodable(run, Run(rx, run).outs)
  {
    var run := Arrivals(got, nows, mem);
    NumberedWithoutGap(st, evs);
    assert forall k :: 0 <= k < |got| ==> got[k] == Videos(AllSent(st, evs))[from + k];
    assert forall k :: 0 <= k < |got| ==> run[k] == AsArrival(got[k], nows[k], mem[k]);
    assert D.WholeRun(run) && D.Contiguous(run);
    D.ContiguousIsShown(rx, run);
  }

  /** A keyframe handed to one peer takes a number that no other peer gets: the next frame
      comes to every other peer behind a gap. */
  lemma {:induction false} InjectionIsAGapForOthers(n: Net, i: nat, j: nat, now: u64, memOk: bool,
                                                    t: u64, data: Bytes, mem: seq<bool>)
    requires i < |n.peers| == |mem| && j < |n.peers| && i != j && n.videoSeq < TWO32 - 2
    requires n.publisher && n.cache.Some? && |n.cache.value| > 0
    requires n.peers[j].state == QUIC_CONNECTED && n.peers[j].agent && mem[j]
    ensures var n2 := SendVideo(Connect(n, i, now, memOk), false, t, data, mem);
            n2.peers[j].offered == n.peers[j].offered + [Entry(Video, false, n.videoSeq + 1, t, data)]
  {}
}
