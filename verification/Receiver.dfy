/** The receive path of libp2pav (p2pav.c, internal_on_data_recv): sequence-gap detection,
    the keyframe gate with its request throttle, and byte-counted reassembly.
    The datatypes and functions are the specification; the classes are the code. */
module Receiver {
  import opened Machine

  const IDR_THROTTLE_US: u64 := 200000
  const VIDEO_MAX_SIZE: nat := 512 * 1024
  const AUDIO_MAX_SIZE: nat := 8 * 1024
  const DATA_MAX_SIZE: nat := 64 * 1024

  datatype FrameType = Video | Audio | IdrRequest | Data | Control

  datatype Header = Header(ftype: FrameType, key: bool, seqNo: u32, timestampUs: u64,
                           totalLen: u32, fragOffset: u32, fragLen: u32)

  /** What the application's callbacks are given. */
  datatype Delivery = Delivery(ftype: FrameType, key: bool, timestampUs: u64, payload: seq<u8>)

  datatype Output = Nothing | KeyframeWanted | Deliver(d: Delivery)

  datatype Buf = Buf(active: bool, key: bool, seqNo: u32, timestampUs: u64,
                     totalLen: u32, received: nat, data: seq<u8>)

  datatype Rx = Rx(video: Buf, audio: Buf, data: Buf,
                   lastVideoSeq: u32, hasLast: bool, waiting: bool, lastIdrReqUs: u64)

  /** One callback: a header with its bytes, the clock at the two places that read it, and
      whether the allocation of the frame copy succeeds. */
  datatype Arrival = Arrival(h: Header, payload: seq<u8>, nowGap: u64, nowCut: u64, memOk: bool)

  /** What the transport guarantees: the payload is the announced fragment, whose end does
      not wrap. */
  predicate WellFormed(a: Arrival) {
    |a.payload| == a.h.fragLen && a.h.fragOffset + a.h.fragLen < TWO32
  }

  ghost predicate AllWellFormed(run: seq<Arrival>) {
    forall i :: 0 <= i < |run| ==> WellFormed(run[i])
  }

  predicate Media(t: FrameType) {
    t.Video? || t.Audio? || t.Data?
  }

  // ---------- Specification of one step ----------

  /** Ask for a keyframe and close the gate, unless one was asked for within 200 ms. */
  function TryRequest(st: Rx, now: u64): (Rx, seq<int>) {
    if Sub64(now, st.lastIdrReqUs) >= IDR_THROTTLE_US
    then (st.(lastIdrReqUs := now, waiting := true), [now])
    else (st, [])
  }

  predicate Gap(st: Rx, h: Header) {
    st.hasLast && h.fragOffset == 0 && h.seqNo > Add32(st.lastVideoSeq, 1)
  }

  predicate Cut(b: Buf, h: Header) {
    b.active && h.seqNo != b.seqNo && b.received < b.totalLen
  }

  function DetectLoss(st: Rx, a: Arrival): (Rx, seq<int>) {
    var (st1, r1) := if Gap(st, a.h) then TryRequest(st, a.nowGap) else (st, []);
    var (st2, r2) := if Cut(st1.video, a.h) then TryRequest(st1, a.nowCut) else (st1, []);
    (st2, r1 + r2)
  }

  /** The keyframe gate; the flag says whether the fragment passes. */
  function Gate(st: Rx, h: Header): (Rx, bool) {
    if h.fragOffset != 0 then (st, true)
    else
      var st1 := st.(lastVideoSeq := h.seqNo, hasLast := true);
      if !st.waiting then (st1, true)
      else if h.key then (st1.(waiting := false), true)
      else (st1, false)
  }

  function Patch(data: seq<u8>, off: nat, payload: seq<u8>): (r: seq<u8>)
    requires off + |payload| <= |data|
    ensures |r| == |data|
  {
    data[..off] + payload + data[off + |payload|..]
  }

  function Opened(b: Buf, h: Header): Buf {
    Buf(true, h.key, h.seqNo, h.timestampUs, h.totalLen, 0, b.data)
  }

  function Accept(b: Buf, a: Arrival): (Buf, Output)
    requires WellFormed(a)
  {
    var h := a.h;
    var reset := !b.active || b.seqNo != h.seqNo;
    var b1 := if reset then Opened(b, h) else b;
    var end := h.fragOffset + h.fragLen;
    if reset && b.active && h.seqNo < b.seqNo then (b, Nothing)
    else if reset && h.totalLen > |b.data| then (b1.(active := false), Nothing)
    else if h.fragOffset >= |b.data| || end > |b.data| || end > b1.totalLen then (b1, Nothing)
    else
      var b2 := b1.(data := Patch(b1.data, h.fragOffset, a.payload),
                    received := b1.received + h.fragLen,
                    key := if h.fragOffset == 0 then h.key else b1.key);
      if b2.received < b2.totalLen || b2.totalLen > |b2.data| then (b2, Nothing)
      else (b2.(active := false, received := 0),
            if a.memOk then Deliver(Delivery(h.ftype, b2.key, b2.timestampUs, b2.data[..b2.totalLen]))
            else Nothing)
  }

  function BufOf(st: Rx, t: FrameType): Buf {
    if t.Video? then st.video else if t.Audio? then st.audio else st.data
  }

  function WithBuf(st: Rx, t: FrameType, b: Buf): Rx {
    if t.Video? then st.(video := b) else if t.Audio? then st.(audio := b) else st.(data := b)
  }

  datatype StepResult = StepResult(st: Rx, out: Output, requests: seq<int>)

  function RxStep(st: Rx, a: Arrival): StepResult
    requires WellFormed(a)
  {
    if a.h.ftype.IdrRequest? then StepResult(st, KeyframeWanted, [])
    else if !Media(a.h.ftype) then StepResult(st, Nothing, [])
    else
      var (st1, requests) := if a.h.ftype.Video? then DetectLoss(st, a) else (st, []);
      var (st2, pass) := if a.h.ftype.Video? then Gate(st1, a.h) else (st1, true);
      if !pass then StepResult(st2, Nothing, requests)
      else
        var (b, out) := Accept(BufOf(st2, a.h.ftype), a);
        StepResult(WithBuf(st2, a.h.ftype, b), out, requests)
  }

  /** An open frame fits its buffer and holds at most its announced length. */
  predicate BufOk(b: Buf) {
    b.active ==> b.received <= b.totalLen <= |b.data|
  }

  lemma {:induction false} AcceptKeepsOk(b: Buf, a: Arrival)
    requires BufOk(b) && WellFormed(a)
    ensures BufOk(Accept(b, a).0) && |Accept(b, a).0.data| == |b.data|
  {}

  predicate RxOk(st: Rx) {
    && BufOk(st.video) && BufOk(st.audio) && BufOk(st.data)
    && |st.video.data| == VIDEO_MAX_SIZE && |st.audio.data| == AUDIO_MAX_SIZE && |st.data.data| == DATA_MAX_SIZE
  }

  lemma {:induction false} StepKeepsOk(st: Rx, a: Arrival)
    requires RxOk(st) && WellFormed(a)
    ensures RxOk(RxStep(st, a).st)
  {
    if Media(a.h.ftype) {
      var (st1, _) := if a.h.ftype.Video? then DetectLoss(st, a) else (st, []);
      var (st2, _) := if a.h.ftype.Video? then Gate(st1, a.h) else (st1, true);
      AcceptKeepsOk(BufOf(st2, a.h.ftype), a);
    }
  }

  // ---------- Runs ----------

  /** The final state of a run, the output of each step, and all requests made. */
  datatype RunResult = RunResult(st: Rx, outs: seq<Output>, requests: seq<int>)

  ghost function Run(st: Rx, run: seq<Arrival>): (r: RunResult)
    requires AllWellFormed(run)
    ensures |r.outs| == |run|
  {
    if run == [] then RunResult(st, [], [])
    else
      var before := Run(st, run[..|run| - 1]);
      var step := RxStep(before.st, run[|run| - 1]);
      RunResult(step.st, before.outs + [step.out], before.requests + step.requests)
  }

  lemma {:induction false} RunSnoc(st: Rx, run: seq<Arrival>, a: Arrival)
    requires AllWellFormed(run) && WellFormed(a)
    ensures AllWellFormed(run + [a])
    ensures var before := Run(st, run);
            Run(st, run + [a]).st == RxStep(before.st, a).st
            && Run(st, run + [a]).outs == before.outs + [RxStep(before.st, a).out]
  {
    assert (run + [a])[..|run|] == run;
  }

  // ---------- The code ----------

  class ReasmBuf {
    var active: bool
    var key: bool
    var seqNo: u32
    var timestampUs: u64
    var totalLen: u32
    var received: u32
    const data: array<u8>

    ghost function Abs(): Buf
      reads this, data
    {
      Buf(active, key, seqNo, timestampUs, totalLen, received, data[..])
    }

    constructor (maxSize: nat)
      ensures fresh(data) && data.Length == maxSize && !active
    {
      active, key, seqNo, timestampUs, totalLen, received := false, false, 0, 0, 0, 0;
      data := new u8[maxSize](_ => 0);
    }

    /** reasm_buf_init fails when there is no memory for the bytes. */
    static method Init(maxSize: nat, memOk: bool) returns (rb: ReasmBuf?)
      ensures rb == null <==> !memOk
      ensures rb != null ==> fresh(rb) && fresh(rb.data) && rb.data.Length == maxSize && !rb.active
    {
      rb := null;
      if memOk {
        rb := new ReasmBuf(maxSize);
      }
    }

    method Copy(off: nat, payload: seq<u8>)
      requires off + |payload| <= data.Length
      modifies data
      ensures data[..] == Patch(old(data[..]), off, payload)
    {
      forall k | 0 <= k < |payload| {
        data[off + k] := payload[k];
      }
    }

    /** Starts the frame of header h; false when a frame of that length cannot be held. */
    method Open(h: Header) returns (ok: bool)
      modifies this
      ensures Abs() == (var b := Opened(old(Abs()), h); b.(active := ok))
      ensures ok <==> h.totalLen <= data.Length
    {
      active, key, seqNo, timestampUs := true, h.key, h.seqNo, h.timestampUs;
      totalLen, received := h.totalLen, 0;
      if totalLen > data.Length {
        active := false;
      }
      return active;
    }

    method AcceptFragment(a: Arrival) returns (out: Output)
      requires WellFormed(a) && BufOk(Abs()) && data.Length < TWO31
      modifies this, data
      ensures (Abs(), out) == Accept(old(Abs()), a)
      ensures BufOk(Abs())
    {
      var h := a.h;
      if !active || seqNo != h.seqNo {
        if active && h.seqNo < seqNo {
          return Nothing;
        }
        var ok := Open(h);
        if !ok {
          return Nothing;
        }
      }
      var fragEnd := Add32(h.fragOffset, h.fragLen);
      if h.fragOffset >= data.Length || fragEnd > data.Length || fragEnd > totalLen {
        return Nothing;
      }
      Copy(h.fragOffset, a.payload);
      received := received + h.fragLen;
      if h.fragOffset == 0 {
        key := h.key;
      }
      if received < totalLen {
        return Nothing;
      }
      active, received := false, 0;
      if a.memOk {
        return Deliver(Delivery(h.ftype, key, timestampUs, data[..totalLen]));
      }
      return Nothing;
    }
  }

  class PeerState {
    const videoReasm: ReasmBuf
    const audioReasm: ReasmBuf
    const dataReasm: ReasmBuf
    var lastVideoSeq: u32
    var hasLastVideoSeq: bool
    var waitingForKeyframe: bool
    var lastIdrReqUs: u64

    ghost function Abs(): Rx
      reads this, videoReasm, videoReasm.data, audioReasm, audioReasm.data, dataReasm, dataReasm.data
    {
      Rx(videoReasm.Abs(), audioReasm.Abs(), dataReasm.Abs(),
         lastVideoSeq, hasLastVideoSeq, waitingForKeyframe, lastIdrReqUs)
    }

    ghost predicate Valid()
      reads this, videoReasm, videoReasm.data, audioReasm, audioReasm.data, dataReasm, dataReasm.data
    {
      && RxOk(Abs())
      && videoReasm != audioReasm && videoReasm != dataReasm && audioReasm != dataReasm
      && videoReasm.data != audioReasm.data && videoReasm.data != dataReasm.data && audioReasm.data != dataReasm.data
    }

    constructor ()
      ensures Valid() && Initial(Abs())
    {
      videoReasm := new ReasmBuf(VIDEO_MAX_SIZE);
      audioReasm := new ReasmBuf(AUDIO_MAX_SIZE);
      dataReasm := new ReasmBuf(DATA_MAX_SIZE);
      lastVideoSeq, hasLastVideoSeq, waitingForKeyframe, lastIdrReqUs := 0, false, false, 0;
    }

    method RequestKeyframe(now: u64) returns (requests: seq<int>)
      modifies this
      ensures (Abs(), requests) == TryRequest(old(Abs()), now)
    {
      requests := [];
      if Sub64(now, lastIdrReqUs) >= IDR_THROTTLE_US {
        lastIdrReqUs := now;
        waitingForKeyframe := true;
        requests := [now];
      }
    }

    /** Sequence gaps and frames cut short both ask for a keyframe. */
    method NoteLoss(a: Arrival) returns (requests: seq<int>)
      modifies this
      ensures (Abs(), requests) == DetectLoss(old(Abs()), a)
    {
      requests := [];
      var rb := videoReasm;
      if hasLastVideoSeq && a.h.fragOffset == 0 {
        var expected := Add32(lastVideoSeq, 1);
        if a.h.seqNo > expected {
          requests := RequestKeyframe(a.nowGap);
        }
      }
      if rb.active && a.h.seqNo != rb.seqNo && rb.received < rb.totalLen {
        var more := RequestKeyframe(a.nowCut);
        requests := requests + more;
      } else {
        assert requests == requests + [];
      }
    }

    method PassGate(h: Header) returns (pass: bool)
      modifies this
      ensures (Abs(), pass) == Gate(old(Abs()), h)
    {
      if h.fragOffset == 0 {
        lastVideoSeq := h.seqNo;
        hasLastVideoSeq := true;
      }
      if waitingForKeyframe {
        if h.fragOffset == 0 && h.key {
          waitingForKeyframe := false;
        } else if h.fragOffset == 0 {
          return false;
        }
      }
      return true;
    }

    method Reassemble(a: Arrival) returns (out: Output)
      requires Valid() && WellFormed(a) && Media(a.h.ftype)
      modifies videoReasm, videoReasm.data, audioReasm, audioReasm.data, dataReasm, dataReasm.data
      ensures (Abs(), out) == (var (b, o) := Accept(BufOf(old(Abs()), a.h.ftype), a);
                               (WithBuf(old(Abs()), a.h.ftype, b), o))
    {
      if a.h.ftype.Video? {
        out := videoReasm.AcceptFragment(a);
      } else if a.h.ftype.Audio? {
        out := audioReasm.AcceptFragment(a);
      } else {
        out := dataReasm.AcceptFragment(a);
      }
    }

    /** internal_on_data_recv. */
    method OnDataRecv(a: Arrival) returns (out: Output, requests: seq<int>)
      requires Valid() && WellFormed(a)
      modifies this, videoReasm, videoReasm.data, audioReasm, audioReasm.data, dataReasm, dataReasm.data
      ensures Valid()
      ensures StepResult(Abs(), out, requests) == RxStep(old(Abs()), a)
    {
      StepKeepsOk(Abs(), a);
      if a.h.ftype.IdrRequest? {
        return KeyframeWanted, [];
      }
      if !Media(a.h.ftype) {
        return Nothing, [];
      }
      requests := [];
      if a.h.ftype.Video? {
        requests := NoteLoss(a);
        var pass := PassGate(a.h);
        if !pass {
          return Nothing, requests;
        }
      }
      out := Reassemble(a);
    }
  }

  /** The state p2pav_session_create leaves: everything zeroed, buffers allocated. */
  predicate Initial(st: Rx) {
    !st.video.active && !st.audio.active && !st.data.active && !st.hasLast && !st.waiting && st.lastIdrReqUs == 0
  }
}
