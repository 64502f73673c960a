/** The example subscriber's receive path (p2p_peer.c): loss counters, keyframe requests with
    throttle and retry, and the timer that gives up waiting for a keyframe. The buffers work
    as those of libp2pav do. */
module PeerClient {
  import opened Machine
  import R = Receiver

  const IDR_REQ_THROTTLE_US: int := 200000
  const IDR_REQ_RETRY_US: int := 1000000
  const IDR_WAIT_TIMEOUT_US: int := 5000000
  const REASM_MAX_SIZE: nat := 512 * 1024

  /** The fields of peer_ctx_t, and the clock reading with which the main loop's turn began. */
  datatype Client = Client(fragTotal: u32, fragDup: u32, framesOk: u32, framesLost: u32, framesIncomplete: u32,
                           lastVideoSeq: u32, hasLast: bool, waiting: bool, lastIdrReqUs: u64,
                           audioLost: u32, lastAudioSeq: u32, hasLastAudio: bool,
                           video: R.Buf, audio: R.Buf, turnUs: u64)

  predicate Fresh(c: Client) {
    && c.fragTotal == c.fragDup == c.framesOk == c.framesLost == c.framesIncomplete == c.audioLost == 0
    && !c.hasLast && !c.waiting && !c.hasLastAudio && c.lastIdrReqUs == 0 && c.turnUs == 0
    && !c.video.active && !c.audio.active && |c.video.data| == |c.audio.data| == REASM_MAX_SIZE
  }

  /** One keyframe request: when, and whether the client was already waiting for one. */
  datatype Request = Request(at: u64, retry: bool)

  // ---------- Specification ----------

  /** request_idr_if_needed. */
  function Ask(c: Client, now: u64): (Client, seq<Request>) {
    var since := Sub64(now, c.lastIdrReqUs);
    if since >= (if c.waiting then IDR_REQ_RETRY_US else IDR_REQ_THROTTLE_US)
    then (c.(lastIdrReqUs := now, waiting := true), [Request(now, c.waiting)])
    else (c, [])
  }

  function CountLoss(c: Client, a: R.Arrival): (Client, seq<Request>) {
    var expected := Add32(c.lastVideoSeq, 1);
    if c.hasLast && a.h.fragOffset == 0 && a.h.seqNo > expected
    then Ask(c.(framesLost := Add32(c.framesLost, a.h.seqNo - expected)), a.nowGap)
    else (c, [])
  }

  function CountCut(c: Client, a: R.Arrival): (Client, seq<Request>) {
    if R.Cut(c.video, a.h) then Ask(c.(framesIncomplete := Add32(c.framesIncomplete, 1)), a.nowCut)
    else (c, [])
  }

  function Gate(c: Client, h: R.Header): (Client, bool) {
    var c1 := if h.fragOffset == 0 then c.(lastVideoSeq := h.seqNo, hasLast := true) else c;
    if !c1.waiting || h.fragOffset != 0 then (c1, true)
    else if h.key then (c1.(waiting := false), true)
    else (c1, false)
  }

  function CountAudio(c: Client, h: R.Header): Client {
    var expected := Add32(c.lastAudioSeq, 1);
    if h.fragOffset != 0 then c
    else
      c.(audioLost := if c.hasLastAudio && h.seqNo > expected then Add32(c.audioLost, h.seqNo - expected)
                      else c.audioLost,
         lastAudioSeq := h.seqNo, hasLastAudio := true)
  }

  predicate Stale(b: R.Buf, h: R.Header) {
    b.active && h.seqNo < b.seqNo
  }

  /** Reassembly; a complete frame goes to its decoder, from memory set aside for it. */
  function Collect(c: Client, a: R.Arrival): (Client, R.Output)
    requires R.WellFormed(a)
  {
    var b := if a.h.ftype.Video? then c.video else c.audio;
    var (b1, out) := R.Accept(b, a.(memOk := true));
    var c1 := if a.h.ftype.Video? then c.(video := b1) else c.(audio := b1);
    (c1.(fragDup := if Stale(b, a.h) then Add32(c.fragDup, 1) else c.fragDup,
         framesOk := if a.h.ftype.Video? && out.Deliver? then Add32(c.framesOk, 1) else c.framesOk),
     out)
  }

  datatype Step = Step(c: Client, out: R.Output, requests: seq<Request>)

  /** on_data_recv. */
  function OnData(c: Client, a: R.Arrival): Step
    requires R.WellFormed(a)
  {
    if a.h.ftype.Audio? then
      var (c1, out) := Collect(CountAudio(c, a.h), a);
      Step(c1, out, [])
    else if !a.h.ftype.Video? then Step(c, R.Nothing, [])
    else
      var (c1, r1) := CountLoss(c.(fragTotal := Add32(c.fragTotal, 1)), a);
      var (c2, r2) := CountCut(c1, a);
      var (c3, pass) := Gate(c2, a.h);
      var (c4, out) := if pass then Collect(c3, a) else (c3, R.Nothing);
      Step(c4, out, r1 + r2)
  }

  /** The test of the main loop: stop waiting when the last request lies five seconds before
      the reading of the clock with which the turn began. */
  function CheckTimer(c: Client): Client {
    if c.waiting && Sub64(c.turnUs, c.lastIdrReqUs) >= IDR_WAIT_TIMEOUT_US then c.(waiting := false) else c
  }

  /** The receiving thread takes fragments under its lock. The main loop takes no lock: it may
      change the two fields that both threads write at any time. */
  datatype Event = Frame(a: R.Arrival) | MainLoop(waiting: bool, lastIdrReqUs: u64)

  predicate WellFormed(e: Event) {
    e.Frame? ==> R.WellFormed(e.a)
  }

  function Next(c: Client, e: Event): Client
    requires WellFormed(e)
  {
    match e
    case Frame(a) => OnData(c, a).c
    case MainLoop(waiting, last) => c.(waiting := waiting, lastIdrReqUs := last)
  }

  ghost predicate AllWellFormed(evs: seq<Event>) {
    forall i :: 0 <= i < |evs| ==> WellFormed(evs[i])
  }

  ghost function Run(c: Client, evs: seq<Event>): Client
    requires AllWellFormed(evs)
  {
    if evs == [] then c else Next(Run(c, evs[..|evs| - 1]), evs[|evs| - 1])
  }

  // ---------- Exact loss accounting ----------

  function FrameOf(e: Event): seq<R.Header> {
    if e.Frame? && e.a.h.ftype.Video? then [e.a.h] else []
  }

  /** The headers of the video fragments of a run. */
  function Frames(evs: seq<Event>): seq<R.Header> {
    if evs == [] then [] else Frames(evs[..|evs| - 1]) + FrameOf(evs[|evs| - 1])
  }

  /** Whole frames, of whatever size, with increasing numbers. */
  ghost predicate WholeRun(run: seq<R.Header>) {
    && (forall i :: 0 <= i < |run| ==> run[i].fragOffset == 0 && run[i].fragLen == run[i].totalLen)
    && (forall i, j :: 0 <= i < j < |run| ==> run[i].seqNo < run[j].seqNo)
  }

  /** The counters after the frames run: received plus lost is the span of the numbers, and
      no frame is left open. */
  predicate Accounted(c: Client, run: seq<R.Header>) {
    && !c.video.active && |c.video.data| == REASM_MAX_SIZE
    && c.fragTotal == |run|
    && (c.hasLast <==> run != [])
    && (run == [] ==> c.framesLost == 0)
    && (run != [] ==>
          && c.lastVideoSeq == run[|run| - 1].seqNo
          && c.fragTotal + c.framesLost == c.lastVideoSeq - run[0].seqNo + 1)
  }

  /** What a whole frame does to the account, whatever the gate does to the frame. */
  lemma {:induction false} WholeFrame(c: Client, a: R.Arrival)
    requires R.WellFormed(a) && a.h.ftype.Video? && a.h.fragOffset == 0 && a.h.fragLen == a.h.totalLen
    requires !c.video.active && |c.video.data| == REASM_MAX_SIZE
    ensures var c1 := OnData(c, a).c;
            var expected := Add32(c.lastVideoSeq, 1);
            && !c1.video.active && |c1.video.data| == REASM_MAX_SIZE
            && c1.fragTotal == Add32(c.fragTotal, 1) && c1.hasLast && c1.lastVideoSeq == a.h.seqNo
            && c1.framesLost == if c.hasLast && a.h.seqNo > expected then Add32(c.framesLost, a.h.seqNo - expected)
                                else c.framesLost
  {}

  lemma {:induction false} FrameAccounted(c: Client, run: seq<R.Header>, a: R.Arrival)
    requires R.WellFormed(a) && a.h.ftype.Video?
    requires WholeRun(run + [a.h]) && Accounted(c, run) && |run| + 1 < TWO32
    ensures Accounted(OnData(c, a).c, run + [a.h])
  {
    assert (run + [a.h])[|run|] == a.h;
    WholeFrame(c, a);
    if run == [] {
    } else {
      assert (run + [a.h])[|run| - 1].seqNo < a.h.seqNo;
    }
  }

  /** Nothing else touches the account. */
  lemma {:induction false} OtherEventsKeepAccount(c: Client, run: seq<R.Header>, e: Event)
    requires WellFormed(e) && FrameOf(e) == [] && Accounted(c, run)
    ensures Accounted(Next(c, e), run)
  {}

  lemma {:induction false} PrefixOfRun(run: seq<R.Header>, h: R.Header)
    requires WholeRun(run + [h])
    ensures WholeRun(run)
  {
    var all := run + [h];
    assert forall i :: 0 <= i < |run| ==> run[i] == all[i];
  }

  /** However the gate opens and shuts, and whatever audio and interference of the main loop
      come in between: after any run of fewer than 2^32 whole frames with increasing numbers, frames
      received and frames counted as lost add up to the span of sequence numbers seen. */
  lemma {:induction false} LossAccountingIsExact(c: Client, evs: seq<Event>)
    requires Fresh(c) && AllWellFormed(evs) && WholeRun(Frames(evs)) && |Frames(evs)| < TWO32
    ensures Accounted(Run(c, evs), Frames(evs))
    decreases |evs|
  {
    if evs == [] {
    } else {
      var before, e := evs[..|evs| - 1], evs[|evs| - 1];
      var run := Frames(before);
      if FrameOf(e) == [] {
        assert run + [] == run;
        LossAccountingIsExact(c, before);
        OtherEventsKeepAccount(Run(c, before), run, e);
      } else {
        PrefixOfRun(run, e.a.h);
        LossAccountingIsExact(c, before);
        FrameAccounted(Run(c, before), run, e.a);
      }
    }
  }

  // ---------- The code ----------

  class PeerCtx {
    const videoReasm: R.ReasmBuf
    const audioReasm: R.ReasmBuf
    var rxFragTotal: u32
    var rxFragDup: u32
    var videoFramesOk: u32
    var videoFramesLost: u32
    var videoFramesIncomplete: u32
    var lastVideoSeq: u32
    var hasLastVideoSeq: bool
    var waitingForKeyframe: bool
    var lastIdrReqUs: u64
    var audioFramesLost: u32
    var lastAudioSeq: u32
    var hasLastAudioSeq: bool
    var nowUs: u64

    ghost function Abs(): Client
      reads this, videoReasm, videoReasm.data, audioReasm, audioReasm.data
    {
      Client(rxFragTotal, rxFragDup, videoFramesOk, videoFramesLost, videoFramesIncomplete,
             lastVideoSeq, hasLastVideoSeq, waitingForKeyframe, lastIdrReqUs,
             audioFramesLost, lastAudioSeq, hasLastAudioSeq,
             videoReasm.Abs(), audioReasm.Abs(), nowUs)
    }

    ghost predicate Valid()
      reads this, videoReasm, videoReasm.data, audioReasm, audioReasm.data
    {
      && R.BufOk(videoReasm.Abs()) && R.BufOk(audioReasm.Abs())
      && videoReasm.data.Length == audioReasm.data.Length == REASM_MAX_SIZE
      && videoReasm != audioReasm && videoReasm.data != audioReasm.data
    }

    constructor ()
      ensures Valid() && Fresh(Abs())
    {
      videoReasm := new R.ReasmBuf(REASM_MAX_SIZE);
      audioReasm := new R.ReasmBuf(REASM_MAX_SIZE);
      rxFragTotal, rxFragDup, videoFramesOk, videoFramesLost, videoFramesIncomplete := 0, 0, 0, 0, 0;
      lastVideoSeq, hasLastVideoSeq, waitingForKeyframe, lastIdrReqUs := 0, false, false, 0;
      audioFramesLost, lastAudioSeq, hasLastAudioSeq, nowUs := 0, 0, false, 0;
    }

    /** request_idr_if_needed. */
    method RequestIdrIfNeeded(now: u64) returns (requests: seq<Request>)
      modifies `waitingForKeyframe, `lastIdrReqUs
      ensures (Abs(), requests) == Ask(old(Abs()), now)
    {
      var sinceLastReq := Sub64(now, lastIdrReqUs);
      if waitingForKeyframe {
        if sinceLastReq >= IDR_REQ_RETRY_US {
          lastIdrReqUs := now;
          return [Request(now, true)];
        }
        return [];
      }
      if sinceLastReq < IDR_REQ_THROTTLE_US {
        return [];
      }
      lastIdrReqUs := now;
      waitingForKeyframe := true;
      return [Request(now, false)];
    }

    method NoteLoss(a: R.Arrival) returns (requests: seq<Request>)
      modifies `videoFramesLost, `waitingForKeyframe, `lastIdrReqUs
      ensures (Abs(), requests) == CountLoss(old(Abs()), a)
    {
      requests := [];
      if hasLastVideoSeq && a.h.fragOffset == 0 {
        var expected := Add32(lastVideoSeq, 1);
        if a.h.seqNo > expected {
          var gap := a.h.seqNo - expected;
          videoFramesLost := Add32(videoFramesLost, gap);
          requests := RequestIdrIfNeeded(a.nowGap);
        }
      }
    }

    method NoteCut(a: R.Arrival) returns (requests: seq<Request>)
      modifies `videoFramesIncomplete, `waitingForKeyframe, `lastIdrReqUs
      ensures (Abs(), requests) == CountCut(old(Abs()), a)
      ensures videoFramesIncomplete ==
              if videoReasm.active && a.h.seqNo != videoReasm.seqNo && videoReasm.received < videoReasm.totalLen
              then Add32(old(videoFramesIncomplete), 1) else old(videoFramesIncomplete)
      ensures requests ==
              if videoReasm.active && a.h.seqNo != videoReasm.seqNo && videoReasm.received < videoReasm.totalLen
                 && Sub64(a.nowCut, old(lastIdrReqUs)) >= (if old(waitingForKeyframe) then 1000000 else 200000)
              then [Request(a.nowCut, old(waitingForKeyframe))] else []
    {
      requests := [];
      var rb := videoReasm;
      if rb.active && a.h.seqNo != rb.seqNo && rb.received < rb.totalLen {
        videoFramesIncomplete := Add32(videoFramesIncomplete, 1);
        requests := RequestIdrIfNeeded(a.nowCut);
      }
    }

    method PassGate(h: R.Header) returns (pass: bool)
      modifies `lastVideoSeq, `hasLastVideoSeq, `waitingForKeyframe
      ensures (Abs(), pass) == Gate(old(Abs()), h)
      ensures pass <==> !old(waitingForKeyframe) || h.fragOffset != 0 || h.key
      ensures waitingForKeyframe <==> old(waitingForKeyframe) && !(h.fragOffset == 0 && h.key)
    {
      if h.fragOffset == 0 {
        lastVideoSeq := h.seqNo;
        hasLastVideoSeq := true;
      }
      if waitingForKeyframe {
        if h.fragOffset == 0 && h.key {
          waitingForKeyframe := false;
        } else if h.fragOffset == 0 {
          return false;
        }
      }
      return true;
    }

    method NoteAudio(h: R.Header)
      modifies `audioFramesLost, `lastAudioSeq, `hasLastAudioSeq
      ensures Abs() == CountAudio(old(Abs()), h)
    {
      if hasLastAudioSeq && h.fragOffset == 0 {
        var expected := Add32(lastAudioSeq, 1);
        if h.seqNo > expected {
          var gap := h.seqNo - expected;
          audioFramesLost := Add32(audioFramesLost, gap);
        }
      }
      if h.fragOffset == 0 {
        lastAudioSeq := h.seqNo;
        hasLastAudioSeq := true;
      }
    }

    method CollectFragment(a: R.Arrival) returns (out: R.Output)
      requires Valid() && R.WellFormed(a) && (a.h.ftype.Video? || a.h.ftype.Audio?)
      modifies `rxFragDup, `videoFramesOk, videoReasm, videoReasm.data, audioReasm, audioReasm.data
      ensures Valid() && (Abs(), out) == Collect(old(Abs()), a)
      ensures var rb := if a.h.ftype.Video? then videoReasm else audioReasm;
              rxFragDup == if old(rb.active) && a.h.seqNo < old(rb.seqNo) then Add32(old(rxFragDup), 1)
                           else old(rxFragDup)
    {
      var rb := if a.h.ftype.Video? then videoReasm else audioReasm;
      if rb.active && a.h.seqNo < rb.seqNo {
        rxFragDup := Add32(rxFragDup, 1);
        return R.Nothing;
      }
      out := rb.AcceptFragment(a.(memOk := true));
      if out.Deliver? && a.h.ftype.Video? {
        videoFramesOk := Add32(videoFramesOk, 1);
      }
    }

    /** on_data_recv. */
    method OnDataRecv(a: R.Arrival) returns (out: R.Output, requests: seq<Request>)
      requires Valid() && R.WellFormed(a)
      modifies this, videoReasm, videoReasm.data, audioReasm, audioReasm.data
      ensures Valid() && Step(Abs(), out, requests) == OnData(old(Abs()), a)
    {
      if !a.h.ftype.Video? && !a.h.ftype.Audio? {
        return R.Nothing, [];
      }
      requests := [];
      if a.h.ftype.Video? {
        rxFragTotal := Add32(rxFragTotal, 1);
        var r1 := NoteLoss(a);
        var r2 := NoteCut(a);
        requests := r1 + r2;
        var pass := PassGate(a.h);
        if !pass {
          return R.Nothing, requests;
        }
      } else {
        NoteAudio(a.h);
      }
      out := CollectFragment(a);
    }

    /** The clock reading at the start of the main loop's turn. */
    method StartTurn(now: u64)
      modifies `nowUs
      ensures Abs() == old(Abs()).(turnUs := now)
    {
      nowUs := now;
    }

    /** The watchdog of the main loop, run without interference. */
    method AskWhenStalled(stalled: bool, nowReq: u64) returns (requests: seq<Request>)
      modifies `waitingForKeyframe, `lastIdrReqUs
      ensures (Abs(), requests) == if stalled then Ask(old(Abs()), nowReq) else (old(Abs()), [])
    {
      requests := [];
      if stalled {
        requests := RequestIdrIfNeeded(nowReq);
      }
    }

    /** The keyframe timer of the main loop, run without interference. */
    method CheckIdrTimeout()
      modifies `waitingForKeyframe
      ensures Abs() == CheckTimer(old(Abs()))
      ensures waitingForKeyframe <==> old(waitingForKeyframe) && Sub64(nowUs, lastIdrReqUs) < 5000000
    {
      if waitingForKeyframe && Sub64(nowUs, lastIdrReqUs) >= IDR_WAIT_TIMEOUT_US {
        waitingForKeyframe := false;
      }
    }
  }
}
